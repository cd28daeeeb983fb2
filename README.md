# hw_netgames in Dafny

A model of the sequential core of `hw_netgames`, a series of small networked-game exercises in
C++ on top of ENet. Every handler is driven by one event at a time and works on plain
containers, so each C++ class becomes a Dafny `class` with `seq`/`map`/`set` fields, `modifies`
clauses and loops with invariants; each method is proved against specification functions, and
the properties of those functions are proved as lemmas.

| file | module | models |
|---|---|---|
| `types.dfy` | `Types` | fixed-width integers, bytes, floats as IEEE bit patterns, `Entity`, `GameState`, `EntityDelta`, the `kInvalidId` sentinel, the Pos and SizeColor bit packings |
| `buffer.dfy` | `CursorBuffer` | `Buffer<N>` of task 1: a start/end cursor buffer |
| `bytestream.dfy` | `ByteStream` | `ByteOstream` / `ByteIstream` of task 5: fixed values, length-prefixed spans, LSB-first packed `vector<bool>` masks |
| `replication.dfy` | `Replication` | the byte-diff replication channel of task 5: `delta`, `apply`, the per-(peer, channel) session deque, acks |
| `zip.dfy` | `Zip` | `zipById`: in-place sort of both sides, then the two-pointer walk; the callback as a fold over the calls |
| `removal.dfy` | `Removal` | the swap-and-pop removal loop of the task 4 and task 6 servers |
| `entity_factory.dfy` | `EntityFactory` | `Entity::create` of tasks 3 and 4: the `firstFreeId` counter and the color |
| `snapshot_server.dfy` | `SnapshotServer` | the task 6 game server: snapshot history, acks, `stateBySequence`, per-client deltas |
| `snapshot_client.dfy` | `SnapshotClient` | the task 6 client: snapshot buffer, delta application, interpolation, reconciliation bookkeeping |
| `entity_client.dfy` | `EntityClient` | the task 4 client: per-entity position histories and the reconciliation loop |
| `entity_server.dfy` | `EntityServer` | the task 4 game server: entities, clients, input, removal |
| `merge_client.dfy` | `MergeClient` | the task 3 client: the queued-update merge |
| `lobby_browser.dfy` | `LobbyBrowser` | the task 6 lobby: lobbies, create/join/leave/start, a LIFO server pool |
| `lobby_queue.dfy` | `LobbyQueue` | the task 5 lobby: a client set and a FIFO server queue |
| `server_packets.dfy` | `ServerPackets` | the packets the task 4 and task 6 game servers send, and the outbox records |
| `transport.dfy` | `Transport` | `Service` of task 5 (pending callbacks, event routing, XOR cipher, continuations) and of task 4 (`PlainService`) |

Conventions used throughout:

- Each send is a record appended to an `outbox` field, or to `log` in `Transport`.
- Floats are kept as their 32-bit patterns (`F32`), so `std::bit_cast` packings are exact.
- Float tests ("moved more than 1e-3", "size below 1e-3", "farther than 0.05"), float steps and lerps are function-valued parameters.
- Random draws and clock readings are inputs.
- `std::sort` is a stable insertion sort (`Zip.SortByKey`). The standard sort may order equal ids differently.

## Model

| member | source | states |
|---|---|---|
| Types.DefaultEntity | tasks/task5/game/Entity.hpp:14-21 | a default-constructed Entity carries `kInvalidId`, the largest uint32, with size 0.1f and color 0xffffffff |
| Types.PosBitsRoundTrip | tasks/task6/server.cpp:302 | reading back `bit_cast<uint64_t>(pos)` as a vec2 gives the position back |
| Types.SizeColorRoundTrip | tasks/task6/server.cpp:312-313 | a SizeColor value carries the size bits in the high 32 bits and the color in the low 32, and unpacking returns both |
| Types.FindId | tasks/task6/client.cpp:165-170 | `find_if` by id: the first index holding the id, or -1 exactly when no entity has it |
| CursorBuffer.Buffer.constructor | tasks/task1/buffer.hpp:34-36 | both cursors start at 0, nothing pending |
| CursorBuffer.Buffer.CanProduce | tasks/task1/buffer.hpp:12 | true iff `end < N` |
| CursorBuffer.Buffer.CanConsume | tasks/task1/buffer.hpp:13 | true iff some written byte is not consumed (`start < end`) |
| CursorBuffer.Buffer.Produce | tasks/task1/buffer.hpp:15-19 | f gets the `N - end` bytes of room; its bytes land at `end`, `end` advances by their count, `start` is kept, and the pending bytes grow by exactly those bytes |
| CursorBuffer.Buffer.Consume | tasks/task1/buffer.hpp:21-29 | f is shown `data[end..N)` (not the pending bytes); `start` advances by f's result and both cursors reset to 0 when they meet; the pending bytes lose exactly that prefix |
| ByteStream.DecodeEncodeLE | tasks/task5/common/bytestream.hpp:13-17 | the little-endian object representation of an integer decodes back to it |
| ByteStream.ByteOfSmall | tasks/task5/common/bytestream.hpp:52 | the byte built for a value below 256 has that value |
| ByteStream.SizeRoundTrip | tasks/task5/common/bytestream.hpp:79-80 | memcpy of a written size_t back out of the stream gives the same count, whatever follows |
| ByteStream.PackBitsBit | tasks/task5/common/bytestream.hpp:44-50 | bit k of a packed byte is flag k if it exists, and 0 otherwise |
| ByteStream.MaskBytesBit | tasks/task5/common/bytestream.hpp:42-53 | bit j of mask byte i is flag 8i+j |
| ByteStream.MaskBytesHighBitsClear | tasks/task5/common/bytestream.hpp:48 | unused high bits of the last mask byte are 0 |
| ByteStream.UnpackMaskBytes | tasks/task5/common/bytestream.hpp:104-109 | unpacking the packed bytes of a flag vector gives the same flags |
| ByteStream.BoolMaskRoundTrip | tasks/task5/common/bytestream.hpp:32-56 | reading a `vector<bool>` right after writing one returns the same flags and leaves exactly the bytes that followed |
| ByteStream.VectorRoundTrip | tasks/task5/common/bytestream.hpp:23-29 | reading a `vector<T>` after writing a span of T returns the same count and element bytes and leaves the rest |
| ByteStream.PackByte | tasks/task5/common/bytestream.hpp:44-50 | the inner loop builds exactly mask byte i |
| ByteStream.ByteOstream.constructor | tasks/task5/common/bytestream.hpp:64 | a new stream holds no bytes |
| ByteStream.ByteOstream.WriteFixed | tasks/task5/common/bytestream.hpp:11-19 | appends the value's representation; earlier bytes unchanged |
| ByteStream.ByteOstream.WriteSize | tasks/task5/common/bytestream.hpp:25 | appends the 8-byte little-endian count |
| ByteStream.ByteOstream.WriteSpan | tasks/task5/common/bytestream.hpp:21-30 | appends the 8-byte count, then `sizeof(T)*n` element bytes |
| ByteStream.ByteOstream.WriteBoolMask | tasks/task5/common/bytestream.hpp:32-56 | appends the count, then `(n+7)/8` bytes with flag 8i+j in bit j of byte i and unused bits 0 |
| ByteStream.ByteOstream.Finalize | tasks/task5/common/bytestream.hpp:58-61 | returns exactly the bytes accumulated |
| ByteStream.ByteIstream.constructor | tasks/task5/common/bytestream.hpp:70-73 | the reader starts at the front of the span |
| ByteStream.ByteIstream.Eat | tasks/task5/common/bytestream.hpp:117-120 | drops exactly n bytes from the front |
| ByteStream.ByteIstream.ReadFixed | tasks/task5/common/bytestream.hpp:75-82 | returns the first `sizeof(T)` bytes and consumes exactly them |
| ByteStream.ByteIstream.ReadSize | tasks/task5/common/bytestream.hpp:89-90 | decodes the first 8 bytes as the count and consumes them |
| ByteStream.ByteIstream.ReadVector | tasks/task5/common/bytestream.hpp:84-95 | returns the count and `sizeof(T)*count` element bytes and consumes exactly what the matching write produced |
| ByteStream.ByteIstream.ReadBoolMask | tasks/task5/common/bytestream.hpp:97-114 | returns the count's flags (bit i%8 of byte i/8) and consumes `8 + (n+7)/8` bytes |
| Replication.ChangedMask | tasks/task5/common/Replication.hpp:33-44 | the mask has one flag per byte of `recent`; a flag is clear iff `old` has that byte and it is equal |
| Replication.Select | tasks/task5/common/Replication.hpp:40-43 | the changed bytes: one per set flag |
| Replication.Resized | tasks/task5/common/Replication.hpp:61-62 | `old` truncated or zero-padded to the mask length |
| Replication.Patch | tasks/task5/common/Replication.hpp:61-71 | the result has the mask's length |
| Replication.SelectAt | tasks/task5/common/Replication.hpp:64-70 | the changed byte for flag i sits at the number of flags set before i, which is the running `j` |
| Replication.PatchSelect | tasks/task5/common/Replication.hpp:61-71 | patching `old` with recent's mask and changed bytes rebuilds `recent` |
| Replication.ApplyDeltaRoundTrip | tasks/task5/common/Replication.hpp:29-73 | `apply(old, delta(old, recent)) == recent` for all byte sequences |
| Replication.DeltaMarksChanges | tasks/task5/common/Replication.hpp:33-44 | the mask on the wire has length `|recent|` and flag i set iff byte i changed |
| Replication.DeltaCarriesChangedBytes | tasks/task5/common/Replication.hpp:40-43 | each changed byte of `recent` is carried in increasing position order |
| Replication.ApplyKeepsUnchanged | tasks/task5/common/Replication.hpp:61-71 | apply's result has the mask's length; a clear flag copies `old` or is 0 past its end |
| Replication.TrimAckedPrefix | tasks/task5/common/Replication.hpp:89-92 | ack trimming keeps a front part and stops at the first back entry not below the ack |
| Replication.TrimAckedKeepsFront | tasks/task5/common/Replication.hpp:89-92 | with consecutive sequences, an ack no newer than the front keeps the front and every entry at or above the ack |
| Replication.ConsecutiveDecreasing | tasks/task5/common/Replication.hpp:112-116 | consecutive sequences strictly decrease from front to back |
| Replication.TrimAckedIdempotent | tasks/task5/common/Replication.hpp:89-92 | a repeated ack changes nothing |
| Replication.TrimAckedStale | tasks/task5/common/Replication.hpp:89-92 | an ack older than one already applied changes nothing |
| Replication.TrimAckedConsecutive | tasks/task5/common/Replication.hpp:89-92 | trimming keeps the sequences consecutive |
| Replication.InOrderDelivery | tasks/task5/common/Replication.hpp:117-120 | a receiver holding the sender's oldest kept state rebuilds the new state from the diff; in-order delivery is an assumption |
| Replication.ReplicationHost.constructor | tasks/task5/common/Replication.hpp:124 | no sessions, nothing sent |
| Replication.ReplicationHost.DiffLoop | tasks/task5/common/Replication.hpp:31-44 | the loop computes exactly the change mask and the changed bytes |
| Replication.ReplicationHost.Delta | tasks/task5/common/Replication.hpp:29-49 | returns the mask followed by the changed bytes as a span |
| Replication.ReplicationHost.Apply | tasks/task5/common/Replication.hpp:51-73 | returns what the reads and the patch loop define |
| Replication.ReplicationHost.PatchLoop | tasks/task5/common/Replication.hpp:61-71 | the index loop with its running `j` computes the patch |
| Replication.ReplicationHost.HandleReplication | tasks/task5/common/Replication.hpp:76-84 | an unknown session is an error; otherwise `remoteState := apply(remoteState, cont)`, an ack with the same sequence is sent, and the new state is handed on |
| Replication.ReplicationHost.HandleAck | tasks/task5/common/Replication.hpp:86-93 | an unknown session is an error; otherwise back states below the ack are popped |
| Replication.ReplicationHost.SetupReplication | tasks/task5/common/Replication.hpp:95-101 | a new session starts with local states `[{0, []}]` and an empty remote state; an existing one is kept |
| Replication.ReplicationHost.StopReplication | tasks/task5/common/Replication.hpp:103-106 | erases the session |
| Replication.ReplicationHost.Replicate | tasks/task5/common/Replication.hpp:108-121 | an unknown session is an error; otherwise it pushes a front state with sequence front+1 and sends its diff against the back state; sequences stay consecutive |
| Zip.SortByKeySorted | tasks/task5/game/Entity.hpp:44-45 | the sort is ordered by id |
| Zip.SortByKeyPermutes | tasks/task5/game/Entity.hpp:44-45 | the sort is a permutation of its input |
| Zip.SortByKeyOfSorted | tasks/task5/game/Entity.hpp:44-45 | an already sorted side is left as it is |
| Zip.SortByKeyIdempotent | tasks/task5/game/Entity.hpp:44-45 | sorting twice is sorting once |
| Zip.SortByKeyUnique | tasks/task5/game/Entity.hpp:44-45 | unique ids stay unique, keep their set, and come out strictly increasing |
| Zip.InsertPermutes | tasks/task5/game/Entity.hpp:44-45 | one insertion adds exactly the element |
| Zip.InsertSorted | tasks/task5/game/Entity.hpp:44-45 | one insertion keeps the order |
| Zip.SortInPlace | tasks/task5/game/Entity.hpp:44-45 | the in-place sort leaves the array equal to the sorted contents |
| Zip.InsertLast | tasks/task5/game/Entity.hpp:44-45 | one pass puts `a[i]` into the sorted prefix and leaves the rest |
| Zip.ShiftUp | tasks/task5/game/Entity.hpp:44-45 | larger elements of the prefix move up one place; the gap is where the new element belongs |
| Zip.Walk | tasks/task5/game/Entity.hpp:47-65 | f is called only on pairs with equal ids |
| Zip.WalkLoop | tasks/task5/game/Entity.hpp:47-65 | the two-pointer loop makes exactly the calls of the walk |
| Zip.ZipById | tasks/task5/game/Entity.hpp:39-66 | both spans come back sorted (as permutations), and the calls are those of the walk over them |
| Zip.WalkIncreasing | tasks/task5/game/Entity.hpp:61-64 | both indices strictly increase from call to call, so no element is passed twice |
| Zip.WalkBounded | tasks/task5/game/Entity.hpp:49-65 | at most min(\|first\|, \|second\|) calls |
| Zip.WalkCoversCommonIds | tasks/task5/game/Entity.hpp:49-65 | with unique ids on both sorted sides, every id found on both sides gets a call |
| Zip.ZipByIdCommonIds | tasks/task5/game/Entity.hpp:47-65 | with unique ids, the calls are exactly the common ids, each once, in ascending order |
| Zip.WalkFindsPair | tasks/task5/game/Entity.hpp:47-65 | with unique ids, two elements with the same id are passed to f together |
| Zip.FoldCalls | tasks/task5/game/Entity.hpp:62 | running the callback keeps the length of the first side |
| Zip.FoldCallsEffect | tasks/task5/game/Entity.hpp:62 | each called element becomes f of its pair; uncalled elements are untouched |
| Zip.FoldCallsKeys | tasks/task5/game/Entity.hpp:62 | a callback that keeps ids keeps every id |
| Zip.ApplyCalls | tasks/task5/game/Entity.hpp:62 | running the callback in place on the array gives the fold |
| Removal.SwapPopStep | tasks/task6/server.cpp:252-253 | swap with the back and pop takes out exactly element i |
| Removal.SwapPopFromSplits | tasks/task6/server.cpp:247-264 | the loop keeps the prefix it has passed and, of the rest, exactly the live entities; the dead ones are removed |
| Removal.RemoveDeadExact | tasks/task6/server.cpp:247-264 | over the whole vector, every live entity survives as often as it occurred, no dead entity survives, and the removed ones are exactly the dead |
| Removal.RemoveDead | tasks/task4/server.cpp:230-247 | the index loop computes the survivors and the removals |
| EntityFactory.NextId | tasks/task4/game/Entity.cpp:25-31 | the counter after a create is never `kInvalidId` |
| EntityFactory.CreatedColor | tasks/task4/game/Entity.cpp:24 | every created color has bit 31 (0x80000000) set |
| EntityFactory.CounterAfterCounts | tasks/task4/game/Entity.cpp:5-31 | from 0, the first 0xFFFFFFFF creations hand out 0, 1, 2, … |
| EntityFactory.CounterWraps | tasks/task4/game/Entity.cpp:28-31 | after 0xFFFFFFFF creations the sentinel is skipped and the counter wraps to 0 |
| EntityFactory.CreatedIdsDistinct | tasks/task3/game/Entity.cpp:19-25 | the ids of the first 0xFFFFFFFF creations are pairwise distinct |
| EntityFactory.EntityAllocator.constructor | tasks/task4/game/Entity.cpp:5 | the counter starts at 0 |
| EntityFactory.EntityAllocator.Create | tasks/task4/game/Entity.cpp:19-34 | returns the current counter as the id, never `kInvalidId`; the counter moves on, skipping the sentinel |
| EntityFactory.EntityAllocator.CreateFlat | tasks/task3/game/Entity.cpp:12-28 | the same for the task 3 entity shape |
| SnapshotServer.ConsecutiveGap | tasks/task6/server.cpp:209-210 | in a history built by push-front-with-next-sequence, index distance equals sequence distance |
| SnapshotServer.PruneKeeps | tasks/task6/server.cpp:173-176 | pruning keeps a front part of at least two states (or all), and drops only states below minAck |
| SnapshotServer.PruneRetains | tasks/task6/server.cpp:173-176 | a client whose ack is not below minAck still finds its state after pruning |
| SnapshotServer.OldestFrom | tasks/task6/server.cpp:269-270 | the scan from the back stops at the first state with sequence at least s |
| SnapshotServer.OldestAtLeast | tasks/task6/server.cpp:267-272 | `stateBySequence(s)` is the oldest retained state with sequence ≥ s; such a state must exist |
| SnapshotServer.OldestAtLeastExact | tasks/task6/server.cpp:267-272 | with consecutive sequences, a sequence in the retained range is found exactly |
| SnapshotServer.OldestFromSameSequences | tasks/task6/server.cpp:267-272 | the lookup depends only on the sequence numbers, so sorting entity vectors does not move it |
| SnapshotServer.DeltasForSound | tasks/task6/server.cpp:294-316 | every delta is about a matched pair: Pos carries the new position bits and means it moved; SizeColor packs the new size high and color low and means one of them changed |
| SnapshotServer.DeltasForComplete | tasks/task6/server.cpp:294-316 | every moved pair gets a Pos delta, and every resized or recolored pair gets a SizeColor delta |
| SnapshotServer.CollectDeltas | tasks/task6/server.cpp:290-316 | the callback run over the calls appends exactly the fold's deltas |
| SnapshotServer.SortedVariantResort | tasks/task6/server.cpp:290-293 | re-sorting the front and an acked state in place keeps the history a sorted variant of the one the broadcast started from |
| SnapshotServer.SortedVariantKeepsShape | tasks/task6/server.cpp:290-293 | a sorted variant has the same sequences |
| ServerPackets.DestroySends | tasks/task6/server.cpp:255-258 | one DestroyEntity per removed entity, to every client, in removal order; the task 4 server (tasks/task4/server.cpp:238-241) announces removals the same way |
| SnapshotServer.RefreshTargets | tasks/task6/server.cpp:212-223 | refreshing targets never adds or drops a bot: the result has exactly the keys of the old targets |
| SnapshotServer.RefreshTargetsUntouched | tasks/task6/server.cpp:212-223 | a target whose id is carried by no entity keeps its value |
| SnapshotServer.RefreshTargetsOf | tasks/task6/server.cpp:214-222 | a bot whose id occurs once gets its own random draw as its new target exactly when it has reached its old target, and keeps the old target otherwise |
| SnapshotServer.CreateBots | tasks/task6/server.cpp:39-44 | one created entity per sample, in order, with a bot target for each id |
| SnapshotServer.DiffEntities | tasks/task6/server.cpp:290-316 | both vectors come back sorted, and the deltas are the fold of the callback over their walk |
| SnapshotServer.ServerService.constructor | tasks/task6/server.cpp:25-28 | empty history and clients; idCounter starts at 1 |
| SnapshotServer.ServerService.ResetGame | tasks/task6/server.cpp:30-45 | exactly one state, sequence 0, with n created entities, each with a bot target |
| SnapshotServer.ServerService.Connected | tasks/task6/server.cpp:82-125 | sends and sets the key; pushes a clone of the front with sequence+1 and the new player entity, records the client with that sequence as its ack, and announces the join both ways |
| SnapshotServer.ServerService.SpawnPlayer | tasks/task6/server.cpp:94-103 | the new front is the old front plus the created player with sequence+1; the client record takes that sequence |
| SnapshotServer.ServerService.AnnounceJoin | tasks/task6/server.cpp:105-124 | PossesEntity and a snapshot of the front go to the new peer; PlayerJoined and SpawnEntity go to the others; the others' ids go to the new peer |
| SnapshotServer.ServerService.MinAck | tasks/task6/server.cpp:162-171 | the minimum of the packet's sequence and every other client's stored ack; the loop works on copies, so the sender's stored ack does not count |
| SnapshotServer.ServerService.HandleSnapshotDeltaAck | tasks/task6/server.cpp:160-177 | the history is pruned below that minimum, never below 2 states; clients are unchanged |
| SnapshotServer.ServerService.Disconnected | tasks/task6/server.cpp:179-205 | an unknown peer is ignored; otherwise the client is erased and the others told; the last leaving empties the history and bot targets and re-registers in the lobby |
| SnapshotServer.ServerService.UpdateLogic | tasks/task6/server.cpp:207-265 | pushes a clone of the front with sequence+1 holding the simulated entities minus exactly the dead ones, announces each removal, and refreshes the targets of bots that reached theirs |
| SnapshotServer.ServerService.RefreshBotTargets | tasks/task6/server.cpp:212-223 | the loop over the cloned front leaves the bot targets as the refresh defines them and changes nothing else |
| SnapshotServer.ServerService.SendDestroys | tasks/task6/server.cpp:255-258 | the removal announcements, in order |
| SnapshotServer.ServerService.StateBySequence | tasks/task6/server.cpp:267-272 | the loop from the back returns the oldest retained state with sequence ≥ s |
| SnapshotServer.ServerService.DiffAgainst | tasks/task6/server.cpp:288-316 | the front and the acked state are sorted in place, and the deltas are those of their walk |
| SnapshotServer.ServerService.DeltasForClient | tasks/task6/server.cpp:287-316 | one client's deltas against its acked state |
| SnapshotServer.ServerService.CollectBatch | tasks/task6/server.cpp:285-320 | one delta list per client, each against that client's acked state |
| SnapshotServer.ServerService.BroadcastDeltas | tasks/task6/server.cpp:274-321 | an empty history sends nothing; otherwise every client gets the front's sequence and its deltas |
| SnapshotClient.ApplyEntityDelta | tasks/task6/client.cpp:135-146 | the callback keeps id and velocity; Pos sets the position, SizeColor sets size and color |
| SnapshotClient.ApplyEntityDeltaInvertsPacking | tasks/task6/client.cpp:137-145 | a server delta read back on the client restores the server's position, or its size and color |
| SnapshotClient.ZipApplyKeepsIds | tasks/task6/client.cpp:130-146 | applying deltas keeps the sequence and yields the sorted entities with the same ids |
| SnapshotClient.ApplyDeltas | tasks/task6/client.cpp:130-146 | the copy of the newest state is sorted and the callback folded over zipById's calls |
| SnapshotClient.ZipApplyUniqueDeltas | tasks/task6/client.cpp:130-146 | with unique ids on both sides, an entity with a delta for its id gets that delta, and deltas for ids not in the snapshot are ignored |
| SnapshotClient.DeltaFound | tasks/task6/client.cpp:132-146 | a delta whose id matches a sorted entity is paired with it |
| SnapshotClient.NoDeltaNoCall | tasks/task6/client.cpp:132-146 | an entity with no delta is never handed to the callback |
| SnapshotClient.ZipApplyDropsSecondDelta | tasks/task6/client.cpp:130-146 | as written, one entity with both a Pos and a SizeColor delta keeps only the first after sorting |
| SnapshotClient.ApplyAllDeltas | tasks/task6/client.cpp:130-146 | corrected: every delta applied in order keeps length and ids |
| SnapshotClient.ApplyAllDeltasEffect | tasks/task6/client.cpp:130-146 | corrected: each entity ends with the last position and the last size/color sent for its id |
| SnapshotClient.ApplyAllDeltasKeepsBoth | tasks/task6/client.cpp:130-146 | corrected: on the input that loses a delta as written, both take effect |
| SnapshotClient.CapSnapshots | tasks/task6/client.cpp:148-151 | at most 10 snapshots remain if at most 11 were there, and the newest is kept |
| SnapshotClient.TrimBeforeKeeps | tasks/task6/client.cpp:384-387 | trimming keeps a suffix of at least two snapshots (or all); when it stops with more than two, the second is not older than the time |
| SnapshotClient.Blend | tasks/task6/client.cpp:404-415 | a blended entity takes id and color from the newer one |
| SnapshotClient.Interpolated | tasks/task6/client.cpp:398-418 | one blended entity per zipById call, in call order |
| SnapshotClient.InterpolatedIdsOfCalls | tasks/task6/client.cpp:401-416 | the result's ids are the ids of the called elements |
| SnapshotClient.InterpolatedIds | tasks/task6/client.cpp:393-418 | with unique ids, the list holds exactly the ids present in both snapshots, ascending, each with the color of the newer snapshot |
| SnapshotClient.InterpolatedColors | tasks/task6/client.cpp:410-415 | every interpolated entity has an entity of the newer snapshot with the same id and color |
| SnapshotClient.DropOlderKeeps | tasks/task6/client.cpp:467-471 | the velocity trim keeps a suffix starting at an entry not older than `last`; with times in order, every entry kept is not older |
| SnapshotClient.MergeOne | tasks/task6/client.cpp:512-520 | the run callback keeps the id |
| SnapshotClient.MergedKeepsPlayer | tasks/task6/client.cpp:509-520 | the merge is a permutation of the sorted entities, keeps every id and the player's position; matched entities take size and color, and non-players take the position too |
| SnapshotClient.InputRateLimited | tasks/task6/client.cpp:525-527 | right after a send, nothing is due again within kSendRate |
| SnapshotClient.SwapPop | tasks/task6/client.cpp:171-172 | swap-and-pop shortens the vector by one |
| SnapshotClient.SwapPopRemoves | tasks/task6/client.cpp:171-172 | it takes out exactly that element; with unique ids, its id is gone |
| SnapshotClient.BlendCalls | tasks/task6/client.cpp:401-416 | the callback appending to the result computes the interpolated list |
| SnapshotClient.ClientService.constructor | tasks/task6/client.cpp:53-57 | empty state, buffer and velocity history; the uninitialised player id is a parameter |
| SnapshotClient.ClientService.HandlePossesEntity | tasks/task6/client.cpp:100-103 | records the player id and changes nothing else |
| SnapshotClient.ClientService.HandleSnapshot | tasks/task6/client.cpp:116-126 | the payload replaces the shown entities and is buffered once with sequence 0 |
| SnapshotClient.ClientService.HandleSnapshotDelta | tasks/task6/client.cpp:128-155 | a copy of the newest snapshot with the deltas applied is buffered; the buffer stays within 10 and an ack with the packet's sequence is sent |
| SnapshotClient.ClientService.HandleSpawnEntity | tasks/task6/client.cpp:157-161 | the entity joins the shown entities and the newest buffered snapshot |
| SnapshotClient.ClientService.HandleDestroyEntity | tasks/task6/client.cpp:163-173 | an unknown id changes nothing; otherwise exactly one matching entity is removed; with unique ids its id is gone; the buffer is untouched |
| SnapshotClient.ClientService.Interpolate | tasks/task6/client.cpp:382-422 | trims the buffer (never below 2); with none returns the shown entities, with one its entities, with two or more the blend of the two oldest |
| SnapshotClient.ClientService.InterpolatePlayer | tasks/task6/client.cpp:424-483 | a no-op without the player's entity; otherwise it records the desired speed, steps the entity, and, when the newest snapshot has the player, drops velocity entries older than its time less half the round trip |
| SnapshotClient.ClientService.MergeInterpolated | tasks/task6/client.cpp:509-520 | the shown entities become the merge with the interpolated ones |
| SnapshotClient.ClientService.MaybeSendInput | tasks/task6/client.cpp:525-538 | sends the desired speed and records the time exactly when connected, a player is assigned, more than kSendRate has passed and the velocity changed (or there are fewer than two entries) |
| EntityClient.CapPositions | tasks/task4/client.cpp:109-116 | at most 10 positions remain if at most 11 were there, and the newest is kept |
| EntityClient.TrimPositionsKeeps | tasks/task4/client.cpp:317-320 | trimming keeps a suffix of at least two positions (or all) |
| EntityClient.Interpolate | tasks/task4/client.cpp:315-336 | only the position changes: kept with no positions, the single position with one, a lerp of the two oldest otherwise |
| EntityClient.StepEntity | tasks/task4/client.cpp:360-415 | one loop pass changes only entity k, keeps its id and the set of history ids |
| EntityClient.RunFold | tasks/task4/client.cpp:360-415 | the loop over the first n entities keeps every id and leaves the rest |
| EntityClient.PlayerStepConsumes | tasks/task4/client.cpp:391-401 | reconciliation clears the player's history and leaves only velocity entries no older than the newest position's time less half the round trip |
| EntityClient.OtherStepInterpolates | tasks/task4/client.cpp:362-367 | other entities keep at least two positions (or all), and with one left take that position |
| EntityClient.WithoutId | tasks/task4/client.cpp:151-155 | `erase_if`: no entity with the id remains, and all others remain with their counts |
| EntityClient.ClientService.constructor | tasks/task4/client.cpp:53-57 | empty state; the uninitialised player id is a parameter |
| EntityClient.ClientService.HandlePossesEntity | tasks/task4/client.cpp:85-88 | records the player id |
| EntityClient.ClientService.HandleEntitySnapshot | tasks/task4/client.cpp:101-117 | an id without a history is ignored; otherwise the position is appended and capped at 10 |
| EntityClient.ClientService.HandleSpawnEntity | tasks/task4/client.cpp:119-123 | appends the entity; a new id gets an empty history and an existing one is kept |
| EntityClient.ClientService.HandlePropsChanged | tasks/task4/client.cpp:125-132 | only the size and color of the first matching entity change; nothing without a match |
| EntityClient.ClientService.HandleTeleport | tasks/task4/client.cpp:134-147 | moves the first matching entity if any, and always clears that id's history |
| EntityClient.ClientService.HandleDestroyEntity | tasks/task4/client.cpp:149-157 | removes every entity with the id and erases its history |
| EntityClient.ClientService.RunEntities | tasks/task4/client.cpp:360-415 | the entity loop computes the fold of the per-entity step |
| EntityClient.ClientService.StepAt | tasks/task4/client.cpp:362-414 | one pass of the loop computes the step |
| EntityClient.ClientService.InterpolateAt | tasks/task4/client.cpp:364-367 | another entity is interpolated |
| EntityClient.ClientService.ReconcileAt | tasks/task4/client.cpp:368-414 | the player's entity is stepped and reconciled |
| EntityClient.ClientService.MaybeSendInput | tasks/task4/client.cpp:418-426 | sends exactly when connected, a player is assigned and more than kSendRate has passed |
| EntityServer.SpawnAll | tasks/task4/server.cpp:106-109 | one SpawnEntity per entity, in vector order |
| EntityServer.ServerService.constructor | tasks/task4/server.cpp:22-26 | the constructor resets the game; no clients; idCounter starts at 1 |
| EntityServer.ServerService.ResetGame | tasks/task4/server.cpp:28-42 | exactly 10 created entities, each with a bot target |
| EntityServer.ServerService.Connected | tasks/task4/server.cpp:75-110 | appends one created entity, records the client with it, increments idCounter, announces the join both ways, and spawns every entity at the new peer |
| EntityServer.ServerService.HandlePlayerInput | tasks/task4/server.cpp:122-140 | ignored for an unknown peer or a missing entity; otherwise the entity's velocity is zero for a tiny input and the clamped input otherwise |
| EntityServer.ServerService.Disconnected | tasks/task4/server.cpp:142-167 | ignores unknown peers; otherwise it erases the client and tells the others; when none are left the game is reset and the server re-registers |
| EntityServer.ServerService.RemoveSmall | tasks/task4/server.cpp:230-247 | exactly the too-small entities are removed, and each removal is announced to every client |
| MergeClient.ApplyUpdate | tasks/task3/client.cpp:276-278 | an update writes x, y and size, never color or id |
| MergeClient.MergeFrom | tasks/task3/client.cpp:264-280 | the merge keeps length, ids and colors |
| MergeClient.LastUpdate | tasks/task3/client.cpp:264-280 | the last queued update for an id, or none exactly when there is none |
| MergeClient.UpdatedAll | tasks/task3/client.cpp:258-282 | reference result: every entity with the last queued update for its id |
| MergeClient.MergeFromUpdates | tasks/task3/client.cpp:264-280 | the loop from any state satisfying its invariant ends at the reference result |
| MergeClient.MergeIsUpdatedAll | tasks/task3/client.cpp:258-280 | on sorted vectors with distinct entity ids, the merge gives each entity its last update |
| MergeClient.MergeSkipsUnmatched | tasks/task3/client.cpp:266-275 | an entity with no update is unchanged |
| MergeClient.MergeLastWins | tasks/task3/client.cpp:276-279 | only j advances on a match, so of several updates for an id the last one wins |
| MergeClient.MergeUpdatesEffect | tasks/task3/client.cpp:258-282 | with unique entity ids, the merged entities are the sorted entities, each with its last update |
| MergeClient.MergeInPlace | tasks/task3/client.cpp:262-280 | the two-index loop writing into the array computes the merge |
| MergeClient.ClientService.constructor | tasks/task3/client.cpp:39-43 | a default player, no entities, no queued updates |
| MergeClient.ClientService.HandlePossesEntity | tasks/task3/client.cpp:61-64 | sets only the player's id |
| MergeClient.ClientService.HandleEntityUpdate | tasks/task3/client.cpp:77-93 | an update for the player's id sets its size (and position if far) and is not queued; others are queued |
| MergeClient.ClientService.HandleSpawnEntity | tasks/task3/client.cpp:95-113 | a spawn for the player's id overwrites x, y, size and color; any other is appended |
| MergeClient.ClientService.MergeUpdates | tasks/task3/client.cpp:256-283 | the entities become the merge of the sorted vectors, and the queue is emptied |
| LobbyBrowser.CStringLength | tasks/task6/lobby.cpp:45 | the characters before the first NUL |
| LobbyBrowser.EntryName | tasks/task6/lobby.cpp:40-45 | the entry name holds at most 127 characters of the name and is always NUL-terminated |
| LobbyBrowser.FindPeer | tasks/task6/lobby.cpp:63 | the first occurrence of a peer, or -1 exactly when it is absent |
| LobbyBrowser.CollectStep | tasks/task6/lobby.cpp:38-46 | each loop step adds the entry of one more lobby |
| LobbyBrowser.InsertOnly | tasks/task6/lobby.cpp:92-96 | a new lobby whose only member is in no lobby keeps every peer in at most one lobby |
| LobbyBrowser.AppendOnly | tasks/task6/lobby.cpp:116-118 | appending a peer that is in no lobby keeps every peer in at most one lobby |
| LobbyBrowser.LeftLobbyKeeps | tasks/task6/lobby.cpp:77-86 | leaving does not touch a lobby the peer is not in |
| LobbyBrowser.OnlyLobbyOf | tasks/task6/lobby.cpp:72 | erasing the one lobby a peer is in leaves it in none |
| LobbyBrowser.LobbyService.constructor | tasks/task6/lobby.cpp:28-32 | no clients, servers or lobbies; the id counter at 0 |
| LobbyBrowser.LobbyService.CollectEntries | tasks/task6/lobby.cpp:34-49 | one entry per lobby with its id, player count, truncated name and bot count 0 |
| LobbyBrowser.LobbyService.BroadcastLobbies | tasks/task6/lobby.cpp:51-59 | the list goes to every client |
| LobbyBrowser.LobbyService.RemoveFromLobby | tasks/task6/lobby.cpp:61-75 | false and no change if the peer is not a member; otherwise the whole lobby is erased |
| LobbyBrowser.LobbyService.RemoveFromAnyLobby | tasks/task6/lobby.cpp:77-86 | the first lobby holding the peer is erased; afterwards the peer is in no lobby |
| LobbyBrowser.LobbyService.CreateLobby | tasks/task6/lobby.cpp:88-103 | leaves any lobby, adds a lobby under the counter's id whose only member is the peer, increments the counter, and replies and broadcasts |
| LobbyBrowser.LobbyService.AddLobby | tasks/task6/lobby.cpp:92-96 | emplace: the lobby is added under an unused id, and an id in use keeps its lobby |
| LobbyBrowser.LobbyService.JoinLobby | tasks/task6/lobby.cpp:105-126 | an unknown lobby, or one the peer is already in, changes nothing; otherwise the peer's lobby is erased and the peer appended |
| LobbyBrowser.LobbyService.LeaveLobby | tasks/task6/lobby.cpp:128-136 | for a known lobby, it is erased if the peer is a member, and the list is broadcast |
| LobbyBrowser.LobbyService.StartLobby | tasks/task6/lobby.cpp:138-173 | nothing without servers or for an unknown lobby; otherwise the lobby is erased, the most recent server popped, told to start and disconnected, and each player sent its address |
| LobbyBrowser.LobbyService.RegisterClient | tasks/task6/lobby.cpp:175-184 | the client joins the set and receives the list |
| LobbyBrowser.LobbyService.RegisterServer | tasks/task6/lobby.cpp:186-190 | the server is pushed at the back |
| LobbyBrowser.LobbyService.Disconnected | tasks/task6/lobby.cpp:192-203 | a client is removed and its lobby erased; otherwise a server is removed by swap-and-pop |
| LobbyQueue.LobbyService.constructor | tasks/task5/lobby.cpp:20-24 | no clients, no servers |
| LobbyQueue.LobbyService.StartLobby | tasks/task5/lobby.cpp:26-47 | nothing without servers; otherwise the oldest server is popped (FIFO), every client is sent its address, and clients are unchanged |
| LobbyQueue.LobbyService.RegisterClient | tasks/task5/lobby.cpp:49-53 | set insertion, so registering twice is idempotent |
| LobbyQueue.LobbyService.RegisterServer | tasks/task5/lobby.cpp:56-60 | the address joins the back of the queue |
| LobbyQueue.LobbyService.Disconnected | tasks/task5/lobby.cpp:62-65 | removes the peer from the clients only; servers are never removed |
| Transport.ContinuationCount | tasks/task5/common/Service.hpp:141-144 | the count of whole elements after the header; trailing partial bytes are ignored |
| Transport.ContinuationRoundTrip | tasks/task5/common/Service.hpp:58-68 | a packet sent with n elements is read back with n elements |
| Transport.KeyByteAt | tasks/task5/common/Service.hpp:199-205 | the loop's wrapping `j` picks key byte `i % 4` |
| Transport.XorFoldStream | tasks/task5/common/Service.hpp:201-206 | folding the key bytes into the first byte one at a time XORs it with the whole key stream |
| Transport.Ciphered | tasks/task5/common/Service.hpp:194-207 | as written: only byte 0 changes, XORed with the key stream; all other bytes are kept |
| Transport.CipheredInvolution | tasks/task5/common/Service.hpp:194-207 | ciphering twice with the same key and length restores the buffer |
| Transport.CipheredLeavesTail | tasks/task5/common/Service.hpp:204 | as written, a second byte goes out in clear |
| Transport.CipherStream | tasks/task5/common/Service.hpp:204 | corrected: byte i is XORed with `key[i % 4]` |
| Transport.CipherStreamInvolution | tasks/task5/common/Service.hpp:204 | corrected: the stream cipher is its own inverse |
| Transport.FlattenLength | tasks/task5/common/Service.hpp:64-66 | n elements of contSize bytes take `n*contSize` bytes |
| Transport.Service.constructor | tasks/task5/common/Service.hpp:24-28 | no keys and no pending callbacks |
| Transport.Service.Connect | tasks/task5/common/Service.hpp:30-40 | a null peer runs the callback at once and records nothing; otherwise the callback is pending (emplace keeps an existing one) |
| Transport.Service.Disconnect | tasks/task5/common/Service.hpp:42-47 | asks for a graceful close and leaves the callback pending (emplace) |
| Transport.Service.OnConnect | tasks/task5/common/Service.hpp:93-104 | a pending callback runs once and is removed; without one only a server runs its connected hook |
| Transport.Service.OnDisconnect | tasks/task5/common/Service.hpp:106-118 | the peer's key is always erased; a pending callback runs once and is removed, otherwise the disconnected hook runs |
| Transport.Service.SetKeyFor | tasks/task5/common/Service.hpp:185-188 | records the key for the peer |
| Transport.Service.Cipher | tasks/task5/common/Service.hpp:194-207 | nothing without a key; with one, the buffer becomes its as-written ciphering |
| Transport.Service.OnReceive | tasks/task5/common/Service.hpp:120-178 | deciphers in place, makes a tag at or past COUNT fatal, and otherwise dispatches with the continuation count |
| Transport.Service.Send | tasks/task5/common/Service.hpp:49-56 | sends `sizeof(packet)` bytes, enciphered for the peer |
| Transport.Service.SendWithContinuation | tasks/task5/common/Service.hpp:58-68 | sends the header followed by every element, `sizeof(packet) + n*sizeof(Cont)` bytes |
| Transport.PlainService.constructor | tasks/task4/common/Service.hpp:22-27 | no pending callbacks |
| Transport.PlainService.Connect | tasks/task4/common/Service.hpp:29-39 | a null peer runs the callback at once; otherwise it is pending |
| Transport.PlainService.Disconnect | tasks/task4/common/Service.hpp:41-46 | asks for a graceful close and leaves the callback pending |
| Transport.PlainService.OnConnect | tasks/task4/common/Service.hpp:78-89 | a pending callback runs once and is removed; otherwise only servers call connected |
| Transport.PlainService.OnDisconnect | tasks/task4/common/Service.hpp:91-102 | a pending callback runs once and is removed; otherwise disconnected is called |
| Transport.PlainService.OnReceive | tasks/task4/common/Service.hpp:104-110 | a tag at or past COUNT is fatal; otherwise the packet is dispatched |
| Transport.PlainService.Send | tasks/task4/common/Service.hpp:48-53 | sends exactly the packet's bytes |

## Left out

- Float arithmetic is not modelled: `Entity::simulate`, the absorb rule, bot steering, the blend factor and lerp, the reconciliation compensation, `mouse()` speed shaping, input normalisation and `packSnorm2x16`, and `entityDistance`. Float tests, steps and blends are function parameters, and sizes and positions are opaque bit patterns.
- Randomness (`randomPos`, `sizeDistr`, `colorDistr`) is not modelled. The draws are inputs (`Sample`); `colorDistr`'s range is not assumed.
- Wall-clock time and `roundTripTime` are integer inputs.
- ENet is outside the model: host service, packet allocation and the wire layout of packets. Sends are records; the compile-time dispatch over packet types is a case split on the tag (`Received`).
- Packet structs are datatypes. Memory layout, padding and `reinterpret_cast` are not modelled; a packet's bytes appear only where the transport handles bytes.
- Callbacks are tokens (`Callback`), and running one is a log record. Their effects belong to the callers, for example `registerInLobby`, which is the `RegisterInLobby` record.
- Rendering and UI are not modelled (Allegro, ImGui, `draw`, `drawGui`, `colorToAllegro`), nor is the `AsyncInput` thread.
- Chat, `handleLine`, `joinLobby`, `close`, the lobby-related client handlers of task 6 (`PLobbyListUpdate`, `PJoinedLobby`, `PSendKey`, `PPlayerJoined`, `PPlayerLeft`, `PLobbyStarted`) and the run loops' polling are message plumbing and are not modelled.
- The task 6 server's `PPlayerInput` and `PStartServerGame` handlers are not modelled; the latter only calls `resetGame`, which is.
- The task 6 `updateLogic` steering, simulation and absorb passes are represented by the simulated entity vector given to `UpdateLogic`. The bot-target refresh is modelled (`SnapshotServer.RefreshTargets`), with the arrival test and the new random targets as inputs. The task 4 collision pass and `broadcastEntityChange` are left out.
- `playerServerPredicted` and the replay of velocities over it are float simulation and are left out. Only the history bookkeeping is modelled.
- Iteration order of `unordered_map` and `unordered_set` is not fixed. Per-client loops whose order does not matter are one set-addressed record (`Send(to, …)`) or a map of per-peer packets. The lobby map's iteration is an arbitrary choice.
- SnapshotServer.ServerService.HandleSnapshotDeltaAck: sequence numbers are unbounded `nat`, so the 64-bit wrap of `sequence` and `lastSequenceAck` is not modelled (the same holds for `Replication.ReplicationHost.Replicate`).
- Zip.ZipById: `std::sort` is not stable and may order equal ids differently; the model fixes the stable order.
- Replication.ReplicationHost.HandleReplication: requires that the received diff decodes against the stored state; the C++ reads past the buffer otherwise, and in-order delivery is assumed, not checked.
- ByteStream.ByteIstream.ReadVector: requires enough bytes, as the reader does no bounds checking (the same for `ReadFixed`, `ReadSize` and `ReadBoolMask`).
- CursorBuffer.Buffer.Produce: requires f to write no more than the room it is given (and `Consume` to take no more than is pending); the C++ would leave the cursors out of range.
- SnapshotClient.ClientService.HandleSnapshotDelta: requires a non-empty buffer; `back()` on an empty deque is undefined in the C++.
- SnapshotClient.ClientService.HandleSpawnEntity: requires a non-empty snapshot buffer. A PSpawnEntity arriving before the first PSnapshot would call `back()` on an empty deque (tasks/task6/client.cpp:160), which is undefined in the C++.
- SnapshotServer.ServerService.Connected: requires a non-empty history. A client connecting before PStartServerGame, or after the last disconnect cleared the history, makes `front()` (tasks/task6/server.cpp:94) undefined in the C++.
- SnapshotServer.ServerService.SpawnPlayer: requires a non-empty history, for the same `front()` as `Connected`.
- Replication.ReplicationHost.Replicate: requires a non-empty deque of local states. An ack newer than the front empties it, and `front()` (tasks/task5/common/Replication.hpp:114) is then undefined in the C++.
- MergeClient.MergeUpdatesEffect: the queued updates are sorted with the unstable `std::sort` (tasks/task3/client.cpp:260), so which of several updates for one id is applied last is unspecified. The model fixes the queue order of the stable sort, and "the last update wins" is about that order (the same holds for `MergeClient.MergeLastWins`).

## Findings

Both rows are proved in both forms. The classes keep the code's behaviour as written, and the corrected definitions are proved next to the as-written ones.

| source | as written | input that shows it | evidently intended | confidence | as-written member | corrected member |
|---|---|---|---|---|---|---|
| tasks/task6/client.cpp:130-146 | zipById advances both indices on a match, so of the Pos and SizeColor deltas the server sends for one entity (server.cpp:296-315), only the first after sorting is applied | entity id 5 and deltas `[Pos(5, p), SizeColor(5, v)]`: the size and color are not updated | every delta for an id is applied, in order | not executed | SnapshotClient.ZipApplyDropsSecondDelta | SnapshotClient.ApplyAllDeltasEffect |
| tasks/task5/common/Service.hpp:204 | `data[0] ^= key[j]` XORs every key byte into byte 0, so the rest of the packet goes out in clear | two bytes `[0x01, 0x02]` under key `DE AD BE EF`: byte 1 stays `0x02` | byte i XORed with `key[i % 4]` | not executed | Transport.CipheredLeavesTail | Transport.CipherStreamInvolution |
