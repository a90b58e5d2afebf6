# A verified model of StepMesh

StepMesh is a parameter-server style messaging library: workers push tensors to
servers and pull results back, over RDMA or other transports, with a scheduler that
hands out node ids and runs barriers. This project models the parts of it that decide
whether messages and table entries end up where they should, and proves properties of
them for all inputs, all interleavings and all runs. Nothing is executed; every
statement below is a Dafny contract.

The modules follow the components:

| file | component |
|---|---|
| `ChainGraph.dfy`, `HashIndex.dfy`, `HashMap.dfy` | the emhash8 hash map behind `batch_timestamps_`: index of in-array chains, dense pair array, kick-out, swap-with-last erase, rehash |
| `Resender.dfy` | acknowledgement and retransmission over a lossy, duplicating, reordering network |
| `Barrier.dfy` | the scheduler's instance and group barriers |
| `Tracker.dfy` | the rabit tracker: tree, shared ring, relabelling, link accounting at start-up |
| `BatchServer.dfy`, `BatchWorker.dfy` | batches of tensors: timestamps and flags at the worker, reassembly at the server |
| `MultiQp.dfy` | one payload over several queue pairs with counter-gated delivery |
| `Reorder.dfy` | sequence-id reordering in the UCX van |
| `SpscRing.dfy` | the lock-free single-producer single-consumer ring |
| `BatchQueue.dfy` | per-worker queues with a bit mask (`RequestHandler`, `get_batch`) |
| `Slicer.dfy` | slicing by server key ranges and reassembly of the answers |
| `Wire.dfy`, `MetaCodec.dfy` | `PackMeta` and `UnpackMeta` at the level of bytes |
| `NodeIds.dfy` | ranks and ids, node groups, id assignment, request and answer routing |
| `Bits.dfy`, `Arith.dfy`, `Modular.dfy`, `Finite.dfy`, `Wrappers.dfy` | bit arithmetic, products, wrapped counters, counting arguments, optional values |

Conventions. Objects whose methods update fields are classes; each method is proved
against a function or predicate on values, and the hard properties are proved about
those. Concurrency is a state machine whose steps are single loads, stores, messages or
critical-section statements, taken as sequentially consistent; a run is a sequence of
states and steps, and the theorems hold in every state of every run. A failed
`PS_CHECK` is an error result of the method, and in a run of the resender it is the
death of the node. Integers are unbounded; where the width of a machine
integer matters (hash index words, message keys, key arithmetic, wire fields, wrapped
counters) it is written out. The hash function, the iteration order of sets and maps,
wall-clock time and the contents of uninitialised memory are parameters.

Where the code and its documentation or names differ, the code is followed:

- The message key of the resender keeps 8 bits of a node id, so nodes 256 apart look
  the same to it: the second message is not buffered (`Resender.WideIdsAreNotBuffered`),
  and at the receiver it is acknowledged and lost (`Resender.WideSendersAreLost`).
- `Meta::kEmpty` is 32767, a timestamp that is handed out like any other. A message
  with it goes out, but its sender dies when it comes to buffer it and its receiver when
  it comes in, so it is never handed on (`Resender.FatalIsNeverAccepted`); any other
  message can get through while both ends live (`Resender.RetransmissionDelivers`).
- A job is sent as a batch only for certain shapes; others are never closed and stay at
  the server (`BatchWorker.UnshapedNeverEnds`, `BatchWorker.LeftOverIffUnshaped`), and
  pulls beyond a multiple of the servers are not sent (`BatchWorker.AllPulledIff`).
- A job that draws no timestamp is recorded under 0. If 0 is still recorded when another
  such job comes, or the worker's very first timestamp is drawn, and only then,
  `emplace_unique` is given a key that is present, and the table has two records of one
  key (`BatchWorker.AFTensorWorker.ZBatchPushPull`, `BatchWorker.EmptyJobsClash`).
- A rehash to as many buckets as there are pairs has no room for the pairs from 32 on
  (`EmHash.FullRequest`); `reserve` never asks for one (`EmHash.HashMap.Reserve`).
- The slave bit of an immediate value is bit 15 of the address index. The default pool of
  10240 addresses stays below it; with more than 32768, which `BYTEPS_ADDRESS_POOL_SIZE`
  allows, a message can be lost and another passed on incomplete (`MultiQp.CompleteIff`,
  `MultiQp.LargePoolFails`).
- A slave that keeps a link over a failed attempt leaves the rank at its other end waiting
  (`Tracker.AccountsIffNoneKept`).
- Values beyond the sum of the lengths are dropped by slicing
  (`Slicer.SliceThenCollect`, `Slicer.SendAndCollect`).
- A message loses what its command does not carry (`MetaCodec.RoundTripIff`).
- `SizeAtomic` reads two counters at different times. It is exact at one of the two
  loads when the producer or the consumer calls it (`SpscRing.SizeForProducer`,
  `SpscRing.SizeForConsumer`); for another thread it may be the size of no state
  (`SpscRing.SizeOfNoState`).
- The sid modulus `1 << 31` is read as a positive number.

## Model

| member | source | states |
|---|---|---|
| `ChainGraph.AddHeadKeeps` | include/ps/hash_table8.hpp:1496-1507 | a new chain consisting of its main bucket keeps all chains disjoint, acyclic, headed by their main bucket and ending in a self-loop |
| `ChainGraph.AddTailKeeps` | include/ps/hash_table8.hpp:1519-1541 | linking a bucket behind the tail of a chain keeps all chains well formed |
| `ChainGraph.MoveKeeps` | include/ps/hash_table8.hpp:1473-1486 | moving a bucket of a chain to a free place (kick-out) keeps all chains well formed |
| `ChainGraph.UnlinkKeeps` | include/ps/hash_table8.hpp:1295-1312 | taking a bucket out of its chain keeps all chains well formed |
| `ChainGraph.ChainOfMain` | include/ps/hash_table8.hpp:1635-1647 | walking from a main bucket terminates and visits each bucket of that chain exactly once and no other |
| `ChainGraph.OnePredecessor` | include/ps/hash_table8.hpp:1649-1661 | a bucket has at most one predecessor, so the search for it has one answer |
| `HashIndex.KickKeeps` | include/ps/hash_table8.hpp:1473-1486 | moving a foreign entry to an empty bucket keeps the table invariant: every pair is reachable from its main bucket under its hash bits, and nothing else is |
| `HashIndex.PlaceAllocated` | include/ps/hash_table8.hpp:64-67 | storing a new pair in an allocated bucket keeps the table invariant |
| `HashIndex.UnlinkAtKeeps` | include/ps/hash_table8.hpp:1295-1312 | unlinking an inner bucket leaves exactly the chains without that entry |
| `HashIndex.PullUpKeeps` | include/ps/hash_table8.hpp:1298-1307 | erasing a main bucket by pulling its successor up leaves exactly the chains without the erased entry |
| `HashIndex.FillSlotKeeps` | include/ps/hash_table8.hpp:1272-1284 | moving the last pair into the freed slot and redirecting its bucket restores the invariant |
| `HashIndex.SomeEmpty` | include/ps/hash_table8.hpp:1065-1097 | with fewer pairs than buckets some bucket is empty |
| `HashIndex.ListedRemove` | include/ps/hash_table8.hpp:1267-1284 | after swap-with-last removal the pair array lists each remaining entry exactly once |
| `HashIndex.ToMapSize` | include/ps/hash_table8.hpp:1267-1284 | the pair array is as long as the finite map is large |
| `EmHash.RoomForOne` | include/ps/hash_table8.hpp:1065-1097 | the load test, on five quarters of the pairs, leaves an empty bucket and a free pair cell for the next insert |
| `EmHash.LookupEnds` | include/ps/hash_table8.hpp:1367-1398 | a key is absent from the finite map exactly when no bucket holds it |
| `EmHash.BucketsFor` | include/ps/hash_table8.hpp:1171-1178 | the number of buckets is the least doubling of the start that reaches the request, a power of two |
| `EmHash.HashMap.FindEmptyBucket` | include/ps/hash_table8.hpp:1579-1633 | terminates and returns an empty in-range bucket, never reading past the two sentinels, whenever some bucket is empty |
| `EmHash.HashMap.ProbeFromLast` | include/ps/hash_table8.hpp:1609-1631 | the probing from `_last` and its half-table partner reaches an empty bucket |
| `EmHash.HashMap.FindLastBucket` | include/ps/hash_table8.hpp:1635-1647 | returns the tail of the chain it starts in |
| `EmHash.HashMap.FindPrevBucket` | include/ps/hash_table8.hpp:1649-1661 | returns the predecessor in the chain |
| `EmHash.HashMap.FindFilledBucket` | include/ps/hash_table8.hpp:1333-1363 | returns the bucket of the key, or INACTIVE exactly when no bucket holds it |
| `EmHash.HashMap.FindFilledSlot` | include/ps/hash_table8.hpp:1367-1398 | returns the slot of the key with its value exactly when the finite map has it, and the number of pairs otherwise |
| `EmHash.HashMap.TryGet` | include/ps/hash_table8.hpp:656-660 | answers as the finite map |
| `EmHash.HashMap.KickoutBucket` | include/ps/hash_table8.hpp:1473-1486 | frees the bucket and keeps the table invariant and all entries |
| `EmHash.HashMap.FindUniqueBucket` | include/ps/hash_table8.hpp:1543-1563 | allocates a bucket at the main place of the hash or behind the tail of its chain |
| `EmHash.HashMap.FindOrAllocate` | include/ps/hash_table8.hpp:1496-1541 | finds the bucket of the key or allocates one for it |
| `EmHash.HashMap.Rebuild` | include/ps/hash_table8.hpp:1149-1169 | the new pair array keeps all pairs and has room for the load, all buckets are empty and the two sentinels are not |
| `EmHash.HashMap.Rehash` | include/ps/hash_table8.hpp:1171-1224 | does nothing when fewer buckets than pairs are asked for; reports exactly the requests whose pair array is too small for the pairs; otherwise re-indexes every pair over the announced number of buckets, keeps the list of pairs and forgets `_etail` |
| `EmHash.FullRequest` | include/ps/hash_table8.hpp:1149-1202 | a request for as many buckets as pairs, a power of two from 4 on, has room for the pairs exactly below 32 |
| `EmHash.HashMap.Reserve` | include/ps/hash_table8.hpp:1065-1097 | grows exactly when the load test fails, to the announced number of buckets; the test holds afterwards and the entries are unchanged |
| `EmHash.HashMap.CheckExpandNeed` | include/ps/hash_table8.hpp:1243-1246 | afterwards one more pair fits both the index and the pair array |
| `EmHash.HashMap.New` | include/ps/hash_table8.hpp:64-67 | appends the pair, and `_etail` is the bucket of the last slot |
| `EmHash.HashMap.InsertUnique` | include/ps/hash_table8.hpp:795-802 | on an absent key adds exactly that entry at the end of the pair list and returns its bucket |
| `EmHash.HashMap.DoInsert` | include/ps/hash_table8.hpp:726-737 | adds the entry exactly when the key is absent and returns the slot of the key |
| `EmHash.HashMap.Insert` | include/ps/hash_table8.hpp:756-760 | as DoInsert, with growth in between |
| `EmHash.HashMap.Assign` | include/ps/hash_table8.hpp:740-754 | sets the value of the key, in place when present and at the end when not, and returns the place that holds the key and the value |
| `EmHash.HashMap.FindSlotBucket` | include/ps/hash_table8.hpp:1315-1330 | returns the bucket that holds a slot, and its main bucket |
| `EmHash.HashMap.EraseBucket` | include/ps/hash_table8.hpp:1295-1312 | unlinks the entry, returns the bucket to clear, and moves no other entry except out of that bucket |
| `EmHash.HashMap.LastSlotBucket` | include/ps/hash_table8.hpp:1260-1274 | the `_etail` shortcut picks the same bucket as the full search, also when the erase moved that entry |
| `EmHash.HashMap.EraseSlot` | include/ps/hash_table8.hpp:1267-1284 | removes the entry by moving the last pair into its place |
| `EmHash.HashMap.Erase` | include/ps/hash_table8.hpp:900-910 | removes the key from the finite map by moving the last pair into its place, returns whether it was there |
| `EmHash.HashMap.EraseAt` | include/ps/hash_table8.hpp:913-920 | removes the entry at a slot and no other |
| `EmHash.HashMap.Clear` | include/ps/hash_table8.hpp:973-995 | empties the table without reallocating |
| `EmHash.HashMap.constructor` | include/ps/hash_table8.hpp:237-251 | an empty table that satisfies the invariant, for any number of buckets asked for |
| `EmHash.Run` | include/ps/hash_table8.hpp:645-1398 | every run of inserts, unique inserts of absent keys, assignments, erases, clears and lookups, of any length, is answered exactly as a finite map answers it, as long as the entries stored before each insertion leave room in the 32-bit index |
| `Resender.KeyIsFields` | src/resender.h:96-106 | the key packs app id, the two node ids modulo 256, timestamp and request bit into disjoint bit fields |
| `Resender.SameKeyIff` | src/resender.h:96-106 | two messages have the same key exactly when those fields agree |
| `Resender.WideIdsAreNotBuffered` | src/resender.h:36-48 | a message to a node 256 further on has the key of the first and is not buffered beside it |
| `Resender.StoppedIff` | src/resender.h:54-84 | a message the node survives is acknowledged, and stopped as a copy exactly when one with the same key fields has come in before |
| `Resender.WideSendersAreLost` | src/resender.h:66-84 | a message from a node 256 further on than the sender of an accepted one, alike otherwise, is acknowledged and never handed on |
| `Resender.Resender.AddOutgoing` | src/resender.h:36-48 | buffers the message under its key unless it is an ACK or already buffered; the node dies, with nothing buffered, exactly on any message but an ACK with timestamp 32767 |
| `Resender.Resender.AddIncoming` | src/resender.h:54-97 | an ACK clears its entry and is stopped; any other message but TERMINATE is acknowledged, recorded, and stopped when seen before; the node dies, with nothing recorded or sent, exactly on such a message with timestamp 32767 |
| `Resender.Resender.Monitor` | src/resender.h:112-133 | resends exactly the entries past their deadline, counts their retries and keeps every entry; the node dies at the first entry whose count reaches the limit, with the entries up to it counted and nothing resent |
| `Resender.DueOnce` | src/resender.h:118-131 | what the monitor resends are the messages of exactly the entries past send time plus (1 + retries) timeouts, each once |
| `Resender.RetryCounts` | src/resender.h:119-121 | an overdue entry keeps message and send time and is due again one timeout later |
| `Resender.KeyTellsApart` | src/resender.h:96-106 | sender and receiver compute the same key of a message, and messages with different tuples have different keys |
| `Resender.StepKeeps` | src/van.cc:688-705 | every send, buffering, loss, duplication and receipt, the deaths they cause, and every node giving up keep the protocol invariant |
| `Resender.HandedOnOnce` | src/van.cc:719-735 | over any loss, duplication and reordering no message is handed on twice, and only sent ones are |
| `Resender.AcksAreTruthful` | src/resender.h:66-84 | every ACK in flight names a message its sender has accepted |
| `Resender.UnacceptedIsBuffered` | src/resender.h:36-64 | a message whose send has returned and which is not yet accepted is still in the sender's buffer |
| `Resender.SendTransmits` | src/van.cc:688-705 | a send puts the message on its way and leaves it to be buffered |
| `Resender.BufferAdds` | src/resender.h:36-48 | in every run buffering a message keeps the entry it may have and otherwise adds one, and changes no other entry and no other node |
| `Resender.ArrivalIsAcknowledged` | src/resender.h:66-83 | in every run a message that comes in is accepted, now or before, recorded, and acknowledged to its sender under its own key, the first time and every other |
| `Resender.AckClears` | src/resender.h:58-64 | in every run an ACK that comes in takes exactly the entry of the accepted message it names out of the buffer of that message's sender; every other entry and every other node stay |
| `Resender.NotResent` | src/resender.h:112-133 | in every run no pass of the monitor over a buffer without the key of a message sends that message |
| `Resender.RetransmissionDelivers` | src/resender.h:112-133 | from every state in which a sent message is not accepted, resending it is possible exactly while its sender lives, receiving it exactly while its receiver lives, and it is then handed on exactly when its timestamp is not 32767 |
| `Resender.FatalIsNeverAccepted` | src/resender.h:36-97 | in every run a message with timestamp 32767 is never handed on and its send never returns; buffering it kills the sender, receiving it the receiver |
| `Resender.DeathHasACause` | src/resender.h:96-126 | in every run a dead node has sent or been sent such a message, or had a message left to resend |
| `Barrier.Scheduler.ProcessInstanceBarrierCommand` | src/van.cc:377-407 | counts the request and, at the last one, resets the count and answers every node of the group that has an address of its own |
| `Barrier.Scheduler.ProcessBarrierCommand` | src/van.cc:410-455 | lists the requester and, when one per instance group has asked, empties the list and answers those listed that have an address of their own |
| `Barrier.AllAnsweredIff` | src/van.cc:394-400 | everyone is answered exactly when nobody shares an address |
| `Barrier.OthersAnswered` | src/van.cc:394-400 | with some sharing an address, exactly the others are answered, each once and in order |
| `Barrier.StepKeeps` | src/van.cc:377-455 | asking, delivery at the scheduler, release and return keep the barrier invariant |
| `Barrier.NobodyPassesEarly` | src/postoffice.cc:245-273 | in every run no node has returned from its k-th barrier on a group before every participant has asked for its k-th, also when fast nodes are a round ahead |
| `Barrier.NotStuck` | src/postoffice.cc:292-306 | once every participant has asked k times, either k rounds are released or a request is still on its way |
| `Barrier.EveryoneReturns` | src/postoffice.cc:245-306 | once every participant has asked k times and no delivery, release or return of one is left to take, every participant has returned k times |
| `Barrier.StepsDescend` | src/van.cc:376-440 | in every run each delivery, release and return brings its node closer to the end of its barrier and no node further away |
| `Barrier.StepsTell` | src/postoffice.cc:245-273 | in every run requests and returns are counted for the node and barrier they are about and no other |
| `Tracker.Neighbours` | tracker/tracker.py:156-165 | the neighbours of a node are its parent and the nodes it is parent of |
| `Tracker.GetTree` | tracker/tracker.py:167-173 | the maps hold the neighbours and parent of every rank |
| `Tracker.UnderSplits` | tracker/tracker.py:175-192 | the descendants of a node are those of its two children |
| `Tracker.SiblingsApart` | tracker/tracker.py:175-192 | two siblings have no common descendant |
| `Tracker.FindShareRing` | tracker/tracker.py:175-192 | for every order of the children: terminates, lists each node under the start exactly once, begins with it and ends with one of its children |
| `Tracker.GetRing` | tracker/tracker.py:194-207 | the list is a permutation of all ranks, the ring links each node with the nodes before and after it, and next and previous are inverse |
| `Tracker.OneCycle` | tracker/tracker.py:194-207 | following the ring from the root visits every node once and then comes back: a single n-cycle |
| `Tracker.WalkRing` | tracker/tracker.py:216-220 | the relabelling is the bijection from nodes to places on the ring |
| `Tracker.RelabelRing` | tracker/tracker.py:225-226 | after relabelling the ring neighbours of i are i-1 and i+1 modulo n |
| `Tracker.RelabelTree` | tracker/tracker.py:227-228 | the relabelled neighbour lists name the neighbours of the node at each place |
| `Tracker.RelabelParent` | tracker/tracker.py:229-233 | likewise the parents, with -1 for the root |
| `Tracker.GetLinkMap` | tracker/tracker.py:209-234 | all three maps together, for every number of slaves |
| `Tracker.TreeIsomorphic` | tracker/tracker.py:209-234 | two places are tree neighbours, or parent and child, exactly when their nodes are |
| `Tracker.LinksSymmetric` | tracker/tracker.py:70-95 | tree and ring links are symmetric, never to the rank itself, and stay among the ranks |
| `Tracker.RabitTracker.AssignRank` | tracker/tracker.py:70-125 | over any rounds a slave reports: nothing changes before a round without errors, then the rank dials exactly the waiting ranks among the links it does not have, their counts go down, and those at zero are forgotten; a reported link that is none is refused |
| `Tracker.DecidedIff` | tracker/tracker.py:95-113 | what is decided is the report of the first round without errors, provided no link reported up to it is a stranger |
| `Tracker.RankKeeps` | tracker/tracker.py:70-125 | after rank t the table holds exactly the ranks with a link beyond t, counting those links, and rank t dialled exactly its earlier links |
| `Tracker.AccountsIffNoneKept` | tracker/tracker.py:96-125 | with links reported as kept over a failed attempt, the table is right afterwards exactly when there are none |
| `Tracker.RabitTracker.StartAll` | tracker/tracker.py:281-294 | the rank loop hands out all ranks, every slave dials its earlier links once, nobody is left waiting, and each job id maps to the last rank that came with it |
| `Tracker.AcceptSlaves` | tracker/tracker.py:241-294 | start-up of any number of slaves that keep no link over a failed attempt: each tree or ring link is dialled once from its later end and `wait_conn` ends empty |
| `BatchServer.AFTensorMeta.Append` | include/ps/af_tensor_app.h:412-421 | records the timestamp and appends to pushes or pulls |
| `BatchServer.AFTensorServer.KVHandler` | include/ps/af_tensor_app.h:623-685 | on heap objects compared by reference: the new state, what the request handle is called with and whether a push is answered are those of the value-level handler |
| `BatchServer.AFTensorServer.FindContinued` | include/ps/af_tensor_app.h:653-661 | the first displaced batch of the sender that the timestamp continues |
| `BatchServer.FindsItsOwn` | include/ps/af_tensor_app.h:653-668 | with disjoint runs of timestamps a message is matched to its own batch |
| `BatchServer.ArrivalKeeps` | include/ps/af_tensor_app.h:623-685 | every arrival keeps what the server holds equal to what has arrived of each open batch |
| `BatchServer.Reachable` | include/ps/af_tensor_app.h:623-685 | in every interleaving each message finds its batch, so no missing batch is dereferenced |
| `BatchServer.PassedOnOnce` | include/ps/af_tensor_app.h:670-685 | every call of the request handle has the one push or pull of a single request, flagged as single, or is a whole batch with exactly its own pushes and pulls in order, and no batch twice |
| `BatchServer.AnsweredEarly` | include/ps/af_tensor_app.h:634-638 | in every run the early responses are exactly the pushes among the batch messages that have arrived, each once and in order of arrival, no pull and no single request among them; the calls of the request handle are in the order in which single requests and last messages arrived |
| `BatchServer.NothingLeft` | include/ps/af_tensor_app.h:670-685 | when all messages have arrived every batch has been passed on and `batch_data_` and `reorder_buffer_` hold nothing |
| `BatchServer.LeftOverIff` | include/ps/af_tensor_app.h:640-685 | in every state the two buffers hold nothing exactly when every batch has arrived completely or not at all |
| `BatchServer.StaysOpen` | include/ps/af_tensor_app.h:640-685 | of a batch of which something but not all has arrived, exactly what has arrived is in one of the two buffers, and it has not been passed on |
| `BatchWorker.AFTensorWorker.ZBatchPushPull` | include/ps/af_tensor_app.h:96-146 | a batch gets a run of consecutive timestamps, the first is the handle and the rest is added to the records of that handle, and all other records stay; in every state the table is given a key it already has exactly when 0 is recorded and the job draws no timestamp or the very first one |
| `BatchWorker.AFTensorWorker.Wait` | include/ps/af_tensor_app.h:152-162 | waits for the handle and the rest recorded for it and removes exactly that record, whichever the table finds where a key has two |
| `BatchWorker.PostThenWait` | include/ps/af_tensor_app.h:96-162 | after a job and any further jobs and waits for other handles, waiting for its handle waits for exactly the timestamps of that job and leaves all other records; for the handle 0 only while no other job is recorded under 0 |
| `BatchWorker.EmptyJobsClash` | include/ps/af_tensor_app.h:106-162 | on a new worker a job without pushes and with fewer pulls than servers inserts the key 0 a second time after any first job, waiting for 0 removes one of the two, and the next such job inserts it beside the other |
| `BatchWorker.AFTensorWorker.GetAllHandlers` | include/ps/af_tensor_app.h:168-186 | the handle followed by the rest recorded for it, whichever the table finds where a key has two |
| `BatchWorker.FlagsFormBatchIff` | include/ps/af_tensor_app.h:337-364 | the flags are START, MIDDLE..., END exactly for the listed shapes |
| `BatchWorker.ZPush` | include/ps/af_tensor_app.h:236-269 | a push goes to every server |
| `BatchWorker.ZPull` | include/ps/af_tensor_app.h:271-313 | each server gets the pull at the index of its own share |
| `BatchWorker.ZBatchPushPull_` | include/ps/af_tensor_app.h:315-365 | fails exactly on a job without tensors and on a single pull over several servers; a job of one tensor is a single request; any other reaches every server as the messages of one batch exactly when it has one of the shapes, and otherwise as a batch without its END |
| `BatchWorker.UnshapedNeverEnds` | include/ps/af_tensor_app.h:337-364 | no message of a job of another shape carries END |
| `BatchWorker.AllPulledIff` | include/ps/af_tensor_app.h:354-364 | the shares of the servers make up all pulls exactly when the servers divide them |
| `BatchWorker.SentIsLawful` | include/ps/af_tensor_app.h:109-129 | the batches begun by any jobs of several tensors of several workers, whatever their shape, have timestamps as the reassembly needs them |
| `BatchWorker.HandleGetsJobs` | include/ps/af_tensor_app.h:96-685 | from workers to request handle, for any interleaving: every call is a single request or has exactly the pushes of one job of the listed shapes in order and this server's share of its pulls, and no job comes twice |
| `BatchWorker.LeftOverIffUnshaped` | include/ps/af_tensor_app.h:96-685 | when everything sent has arrived exactly the jobs of the listed shapes have been passed on, and the server holds nothing exactly when all jobs have such a shape |
| `MultiQp.Endpoint.SendSplit` | src/rdma_transport.h:616-651 | the chunks lie one behind the other and add up to the payload, QP 0 takes the remainder, and the counters go up by one each |
| `MultiQp.WrittenOnce` | src/rdma_transport.h:705-738 | each byte is written by exactly one chunk with its own value |
| `MultiQp.Endpoint.Matched` | src/rdma_van.h:434-448 | the wait test holds exactly when every slave counter has been reached |
| `MultiQp.StepKeeps` | src/rdma_van.h:808-828 | for pools of at most 32768 addresses posting, landing, polling by the slave bit and delivery on both QPs keep the receive buffers, the queue and the counter as the progress says |
| `MultiQp.DeliveredComplete` | src/rdma_van.h:434-448 | for any interleaving of the two QPs a message is passed on only when all its bytes are in its buffer, and in the order sent |
| `MultiQp.ImmediateTold` | src/rdma_van.h:815-828 | a slave chunk is always told by its immediate value, a completion of QP 0 exactly when bit 15 of the index is clear |
| `MultiQp.LargePoolFails` | src/rdma_van.h:815-828 | a run with a larger pool in which a message is lost and the next one passed on before its slave chunk is posted |
| `MultiQp.CompleteIff` | src/rdma_van.h:434-828 | messages are passed on complete in every run exactly when the pool has at most 32768 addresses, as the default one has |
| `MultiQp.NotHeldBack` | src/rdma_van.h:434-448 | once everything has landed and been polled the next message can be passed on |
| `MultiQp.EverythingGetsThrough` | src/rdma_van.h:434-828 | from every state of every run all messages posted are passed on after a known number of further steps |
| `Reorder.UcxVan.AssignSid` | src/ucx_van.h:1063-1070 | the k-th request to a node gets sid k modulo the window |
| `Reorder.UcxVan.DrainHeld` | src/ucx_van.h:1281-1296 | the drain loop terminates and releases the contiguous run of held sids |
| `Reorder.UcxVan.ReorderMsg` | src/ucx_van.h:1260-1300 | fatal exactly on a negative sid or sender where order is forced; otherwise the new counters, held messages and output are those of the value-level function, whose runs the next rows are about |
| `Reorder.DrainReleases` | src/ucx_van.h:1281-1296 | draining releases exactly the messages up to the first missing one and holds the rest |
| `Reorder.InOrder` | src/ucx_van.h:1260-1300 | for any arrival order within the window a sender's output is the longest contiguous run in sending order, and exactly the others are held |
| `Reorder.AllDelivered` | src/ucx_van.h:1260-1300 | when all have arrived the output is all of them in order and nothing is held |
| `Reorder.OthersPassThrough` | src/ucx_van.h:1269-1272 | whatever comes in, the messages outside the numbering are passed on at once, each once and in order of arrival; without forced order everything is |
| `Reorder.WindowIsTight` | src/ucx_van.h:1260-1300 | a message one whole window early is taken for the expected one |
| `SpscRing.StepKeeps` | include/ps/internal/threadsafe_queue.h:100-149 | every load and store of producer and consumer keeps the ring invariant |
| `SpscRing.Fifo` | include/ps/internal/threadsafe_queue.h:100-138 | in every schedule the popped values are a prefix of the pushed ones and at most capacity-1 are held |
| `SpscRing.NoWriteUnderRead` | include/ps/internal/threadsafe_queue.h:100-138 | the producer never writes the slot the consumer is reading |
| `SpscRing.PushCompletes` | include/ps/internal/threadsafe_queue.h:100-114 | with room left a push completes within three steps of the producer from wherever it is |
| `SpscRing.OfferCompletes` | include/ps/internal/threadsafe_queue.h:100-114 | a push begun with room left adds the value offered |
| `SpscRing.PopCompletes` | include/ps/internal/threadsafe_queue.h:116-138 | with a value there a pop completes within four steps of the consumer from wherever it is, spinning and reloading included, and yields the next value |
| `SpscRing.SizeExactIff` | include/ps/internal/threadsafe_queue.h:140-149 | the size is the number of items at the load of head exactly when tail is then where it was loaded, and the number of items at the load of tail exactly when head is still there |
| `SpscRing.SizeForProducer` | include/ps/internal/threadsafe_queue.h:140-149 | called by the producer the size is exact at the load of head, in every schedule |
| `SpscRing.SizeForConsumer` | include/ps/internal/threadsafe_queue.h:140-149 | called by the consumer the size is exact at the load of tail, in every schedule |
| `SpscRing.SizeOfNoState` | include/ps/internal/threadsafe_queue.h:140-149 | for a third thread a schedule where the size is 0 though the ring holds an item in every state between the loads |
| `BatchQueue.ServerQueues.RequestHandler` | fserver/csrc/public.hpp:47-64 | appends to the queue of the worker, records the request under a new id and keeps bit i set exactly when queue i holds something |
| `BatchQueue.ServerQueues.TakeBatch` | fserver/csrc/public.hpp:77-88 | takes the first entry of every queue in rank order and leaves the mask exact |
| `BatchQueue.MaskGrows` | fserver/csrc/public.hpp:81-86 | clearing the bit of an emptied queue keeps the other bits |
| `BatchQueue.StepKeeps` | fserver/csrc/public.hpp:47-88 | every step of handlers and consumer, the unlocked mask read included, keeps the invariants |
| `BatchQueue.SignalTellsQueues` | fserver/csrc/public.hpp:47-88 | whenever the lock is free, bit i of the mask is set exactly when queue i is not empty |
| `BatchQueue.NeverStuck` | fserver/csrc/public.hpp:66-88 | the consumer never takes from an empty queue; with the lock free a look at the mask makes it ready exactly when no queue is empty, and then it can have the lock |
| `BatchQueue.HolderFinishes` | fserver/csrc/public.hpp:48-88 | a holder of the lock lets it go after a known number of steps, having queued its one request or returned one batch |
| `BatchQueue.BatchesInOrder` | fserver/csrc/public.hpp:66-88 | the b-th call returns the b-th request of every worker in rank order, and the rest is still queued in order |
| `BatchQueue.IdsAreUnique` | fserver/csrc/public.hpp:54-62 | no two requests have the same handler id |
| `BatchQueue.IdsAreUsed` | fserver/csrc/public.hpp:54-62 | every id handed out belongs to a request that was queued and whose meta data is on record |
| `Slicer.GetServerKeyRanges` | src/postoffice.cc:280-290 | the ranges start at 0, follow each other, are all as wide as the key space divided by the servers, and leave out fewer keys than there are servers |
| `Slicer.FindPositions` | include/ps/kv_app.h:636-656 | succeeds exactly when the ranges follow each other and no key is at or beyond the end, and then the positions split the keys at the range bounds |
| `Slicer.DefaultSlicer` | include/ps/kv_app.h:630-684 | for ranges that follow each other and keys below the end, succeeds exactly when the lengths fit, and range i gets the keys between its positions with their values and lengths |
| `Slicer.KeysInRange` | include/ps/kv_app.h:636-656 | each slice holds only keys of its range |
| `Slicer.FindRange` | include/ps/sarray.h:396-401 | the index range of the keys between two bounds, and (0, 0) when there is nothing between them |
| `Slicer.CheckAnswers` | include/ps/kv_app.h:803-814 | passes exactly when every answer covers as many keys as the request has between its first and last, and adds up keys and values |
| `Slicer.MatchesIff` | include/ps/kv_app.h:803-814 | an answer passes exactly when the request has as many keys from its first key to its last as it has itself, and its last is not the largest 64-bit number |
| `Slicer.Collect` | include/ps/kv_app.h:798-846 | the callback fails exactly on a failed check, and otherwise fills the buffers with the answers in order of their first keys, or leaves them alone for zero-copy pulls |
| `Slicer.OnlySortedOrder` | include/ps/kv_app.h:815-819 | sorting by first key restores the one order in which first keys increase |
| `Slicer.SliceThenCollect` | include/ps/kv_app.h:630-846 | for any arrival order of the slices the checks pass and the lengths come back, and the values come back exactly when every value belongs to a key |
| `Slicer.SendAndCollect` | include/ps/kv_app.h:630-846 | slicing, answers in any order and collecting, in one: for keys inside the ranges it fails exactly when the ranges do not follow each other or the lengths do not fit, and otherwise returns the lengths, and the values exactly when every value belongs to a key |
| `MetaCodec.RawMetaTrip` | src/meta.h:45-116 | reading the struct at the offsets of its fields gives back every field |
| `MetaCodec.RawNodeTrip` | src/meta.h:15-42 | the same for a node, whatever the padding holds |
| `MetaCodec.PackMeta` | src/van.cc:767-873 | writes as many bytes as `GetPackMetaLen` says, and the buffer means the message up to what is not sent |
| `MetaCodec.UnpackMeta` | src/van.cc:875-952 | returns what the buffer means |
| `MetaCodec.PackUnpack` | src/van.cc:767-952 | packing and unpacking returns the message up to what is not sent |
| `MetaCodec.RoundTripIff` | src/van.cc:815-855 | that is the message itself exactly when group and signature belong to the command, nodes come only with control messages, and hostnames have no NUL |
| `NodeIds.GroupRankTrip` | include/ps/internal/postoffice.h:151-196 | the group rank of an instance id is the rank it was made from, its offset the instance, and workers have odd ids and servers even ones |
| `NodeIds.RequestKeepsOffset` | include/ps/kv_app.h:275-284 | a request reaches the server instance of the addressed group with the offset of the asking instance |
| `NodeIds.RoutesBackIff` | include/ps/kv_app.h:545-602 | the answer goes back to the asking instance exactly when the answering instance has the same offset in its group |
| `NodeIds.BuildNodeIds` | src/postoffice.cc:132-153 | every group number holds the workers, servers and scheduler it names, in this order, and every id itself |
| `NodeIds.BarrierExpectsGroups` | src/van.cc:426-436 | a group barrier waits for one request per instance group, plus the scheduler's if it belongs to the group |
| `NodeIds.DetectPreferred` | src/van.cc:208-214 | whether any node has a preferred rank |
| `NodeIds.CheckRanks` | src/van.cc:217-247 | the checks pass exactly when the ranks of each role are 0, 1, 2, ... |
| `NodeIds.SchedulerVan.AssignIds` | src/van.cc:208-273 | fatal exactly on bad preferred ranks or a new node that comes with an id; otherwise each node gets the id of its rank, shared with the first node at its address, and exactly the ids of the ranks of the nodes that share are mapped to the ids they share |
| `NodeIds.IdsAreTheGroup` | src/van.cc:249-273 | for the configured numbers on distinct addresses, with or without preferred ranks, the ids are pairwise distinct and exactly those of the worker and server group |

## Left out

- ibverbs, rdma_cm, libfabric, UCX, ZMQ, TensorPipe, CUDA and GPU calls: channels are FIFO queues or lossy bags as each property needs.
- Hash map: `reserve(size_type)`, `shrink_to_fit`, changing the load factor, range erase, statistics, iterators other than by slot, and the hash mixers; the default build options are modelled.
- EmHash.Run: insertions into a table whose entries no longer fit the 32-bit index, because the source has no larger size; the length of the run is not bounded.
- Hash map lookups while another thread inserts: the table is used by one thread at a time.
- Resender: the monitor thread's sleep and the clock are parameters; in the theorems over runs a node may give up whenever it has a message buffered, and no node comes back.
- Resender theorems over runs take node ids below 256, timestamps below 2^30, 32767 among them, and one message per (sender, receiver, timestamp, request), which is what the key can tell apart.
- Barrier: several customers on one node sharing a barrier flag, nodes that share an address (in the theorems over runs), and the early return of an instance barrier on a group of one.
- Tracker: recovery of a slave, shutdown messages, printing and the sockets; slaves start in one batch, already sorted by host. The theorems over start-up take slaves that report no link as kept, which is when the accounting is right.
- BatchWorker.AFTensorWorker.ZBatchPushPull: timestamps are drawn by one thread at a time; the source's lock around it is commented out.
- BatchWorker.AFTensorWorker.GetAllHandlers: which record of a key inserted twice the table finds depends on its layout and is a parameter, here and in `Wait`.
- EmHash.HashMap.Rehash: a request without room for the pairs leaves the table alone; the source copies them past the end of the new array.
- Response counting at the worker, registration of receive buffers, tensor events and traces.
- MultiQp: two QPs, and each message has its own receive buffer while it is in flight; with more QPs the source counts all slave chunks in one counter.
- MultiQp.Endpoint.SendSplit: payloads below 2^32 bytes, the width of the length field.
- Reorder: sids within one window, since two messages a whole window apart have the same sid.
- SpscRing and the node side of barriers are state machines on values rather than classes, because their steps interleave; weak memory ordering is not modelled.
- BatchQueue: at most 30 workers, the width of the shifted `int`.
- Slicer: custom slicers and negative lengths.
- MetaCodec: traces are zero, byte order and padding are those of x86-64, and hostnames of 64 bytes or more or shapes of more than 8 dimensions, which overrun the fixed arrays, are excluded.
- NodeIds: sorting of the nodes before ids are handed out, mixed and sparse host modes, heartbeats, dead nodes and recovery.
- Parallel sort and key matching, other vans, launch scripts and Python tests.
