# A verified model of the RPC framework's core

This project models, in Dafny, the parts of a C++20 coroutine RPC framework that carry its
correctness, and proves what they promise: the two lock-free queues, the deque and the hash
map, the coroutine manager with its timeout heap, the RPC protocol from the calling
coroutine to the serving process and back, the thread pool's schedulers, and, in the
communication library below, the sharding of sessions over pollers and the framing of the
byte stream.  `dafny verify dfyconfig.toml` checks all of it.

Concurrent code is modelled twice.  A state machine takes one step per atomic access,
critical section or handled event; a run is a sequence of steps, chosen freely, and the main
theorems hold of every run.  A class with the source's own fields is then changed in place
by methods that are proved to be the machine's steps, so the theorems hold of the object.
Sequential containers are classes that carry the mathematical value they stand for.

| file | what it models |
|---|---|
| `MpmcQueue.dfy`, `MpmcObject.dfy` | the ticket ring for any number of producers and consumers |
| `SpscQueue.dfy` | the one-slot-spare ring between the main thread and the network thread |
| `Deque.dfy` | the chunked deque, with every allocation and release of a chunk |
| `HashMap.dfy` | linear probing with unoccupied slots that keep their key |
| `BinaryHeap.dfy` | the array heap behind the coroutine timeouts |
| `CoroMgr.dfy`, `CoroObject.dfy` | suspended calls, kills, responses and the timeout sweep |
| `RpcPacket.dfy` | the bytes of an RPC packet: its head and its message |
| `RpcProtocol.dfy` | several processes, a network that loses, duplicates and reorders, servers |
| `Scheduler.dfy`, `SchedulerObject.dfy` | FIFO, LIFO and timer schedulers with their workers |
| `Poller.dfy`, `PollerRequests.dfy`, `PollerObject.dfy` | session ids, pollers, their queues and tables, and what becomes of requests |
| `HeaderAssembler.dfy`, `PacketHeader.dfy`, `PacketProtocol.dfy` | the packet header byte by byte, and cutting a stream into packets |
| `Arithmetic.dfy`, `Bytes.dfy`, `Wrappers.dfy` | division and remainder; numbers in network byte order; optional values |

Where the code does not keep what one would expect of it, the project says exactly when it
does:

* `insert` of the hash map stops at the first hole of the probe path.  It keeps the map if
  and only if it rehashes first or the key is not stored beyond a hole
  (`HashMap.Map.Insert`); `HashMap.InsertAfterEraseWitness` is a run that stores a key twice.
* `KillCoro` resumes a coroutine before it erases its context.  A kill resumes it for the
  only time if and only if no kill of it is in progress (`CoroMgr.KillKeepsOnceIff`);
  `CoroMgr.KilledTwice` is a run in which a coroutine is resumed twice.  All other theorems
  about calls are about runs without such a second kill.
* The status a failed service method puts on its response never reaches the caller, because
  `OnRecvPacket` rebuilds the header with status 0 (`RpcProtocol.FailureInvisible`).
* The packet header keeps status and flags in 16 bits: they survive if and only if they are
  unsigned 16-bit numbers, and LLBC_FAILED arrives as 65535 (`PacketHeader.FieldsSurviveIff`).
* A request handled while its session is still an asynchronous connection is dropped, a close
  as well, and the session then comes to live.  `PollerRequests.RequestFinds` says exactly
  which requests find their session, `PollerRequests.ConnectingIgnores` what happens then.
* A bad header makes the framing layer drop the good packets that came in the same block
  (`PacketProtocol.BadHeaderLoses`); on streams without one the fragmentation does not matter.
* `find_index` of the hash map compares keys in unoccupied slots too, and such a slot may hold
  any key.  So the invariant is about stored keys: before the slot of a key in the map, no
  slot on its probe path stores that key, whether occupied or not.

## Model

| member | source | states |
|---|---|---|
| MpmcQueue.TicketOrderFifo | include/mpmc_queue.h:30-55 | in every interleaving the pop that claimed number n delivers exactly the value given to the emplace that claimed n, and has done so if and only if it was claimed and its thread is through |
| MpmcQueue.QuiescentAccounting | include/mpmc_queue.h:30-55 | once all threads are idle, the delivered numbers are exactly those below head and every other given value is in its slot: nothing is lost |
| MpmcQueue.SlotExclusion | include/mpmc_queue.h:37-54 | two threads between spin test and release store are never in the same slot |
| MpmcQueue.TicketStoredOnce | include/mpmc_queue.h:37-54 | every value a slot's ticket has passed was left in exactly one step, which stored its successor |
| MpmcQueue.TicketMonotone | include/mpmc_queue.h:37-54 | a slot's ticket never falls and rises by at most one a step |
| MpmcQueue.LiveBounded | include/mpmc_queue.h:37-54 | at most Capacity values are published and not yet taken |
| MpmcQueue.SlotHolder | include/mpmc_queue.h:35-50 | whatever a ticket reads, the call it waits for is held by a thread that can move |
| MpmcQueue.NoDeadlock | include/mpmc_queue.h:35-54 | a claimed pop below tail or a claimed emplace below head + Capacity means that some thread has passed its spin or would pass it now |
| MpmcQueue.Completes | include/mpmc_queue.h:35-54 | such a call can be driven to its end without starting any new call |
| MpmcQueue.PopProgress | include/mpmc_queue.h:43-55 | a claimed pop can finish with no further call if and only if its number is below tail |
| MpmcQueue.EmplaceProgress | include/mpmc_queue.h:29-41 | a claimed emplace can finish with no further call if and only if its number is below head + Capacity |
| MpmcQueue.NextInv | include/mpmc_queue.h:29-55 | every step of every thread keeps the invariant that ties tickets, claimed numbers and slot contents |
| MpmcObject.Queue.constructor | include/mpmc_queue.h:11-17 | all tickets 0 and both counters 0: the machine's first state |
| MpmcObject.Queue.ClaimTail | include/mpmc_queue.h:35-36 | the fetch_add of emplace is the machine's step, and returns the claimed number |
| MpmcObject.Queue.TestEmplace | include/mpmc_queue.h:37-37 | one evaluation of the emplace spin is the machine's step, and is true exactly when the thread then owns the slot |
| MpmcObject.Queue.Construct | include/mpmc_queue.h:39-39 | writing the slot is the machine's step |
| MpmcObject.Queue.PublishEmplace | include/mpmc_queue.h:40-40 | the release store of emplace is the machine's step |
| MpmcObject.Queue.ClaimHead | include/mpmc_queue.h:47-48 | the fetch_add of pop is the machine's step |
| MpmcObject.Queue.TestPop | include/mpmc_queue.h:50-50 | one evaluation of the pop spin is the machine's step |
| MpmcObject.Queue.MoveOut | include/mpmc_queue.h:52-52 | moving the value out is the machine's step, and the value is the one given to the emplace that claimed the same number |
| MpmcObject.Queue.PublishPop | include/mpmc_queue.h:54-54 | the release store of pop is the machine's step |
| SpscQueue.DeliveredInOrder | src/rpc_conn_comp.cpp:37-60 | packets whose push returned OK reach the other side in order and at most once, with never more than Capacity - 1 outstanding |
| SpscQueue.RefinesBoundedFifo | include/spsc_queue.h:27-57 | every step of every interleaving, with stale index reads, is a step of a FIFO bounded by Capacity - 1 |
| SpscQueue.RefusalsAreExact | include/spsc_queue.h:33-52 | a push is refused if and only if the FIFO is full when it reads head_, a pop if and only if it is empty when it reads tail_ |
| SpscQueue.CallsProceed | include/spsc_queue.h:33-52 | how a call starts and what its test decides: refused exactly on a full or empty FIFO, else on to the accesses that complete it |
| SpscQueue.PopCompletes | include/spsc_queue.h:53-56 | a pop past its test delivers exactly the front and takes it off in its three remaining accesses, whatever the producer does in between |
| SpscQueue.EmplaceCompletes | include/spsc_queue.h:38-42 | an emplace past its test returns true with its value last in its two remaining accesses, whatever the consumer does in between |
| SpscQueue.LiveRange | include/spsc_queue.h:27-57 | between calls the live objects are exactly the cyclic range from head to tail, in order |
| SpscQueue.Ring.constructor | include/spsc_queue.h:11-13 | no live object and both indices 0 |
| SpscQueue.Ring.LoadTail | include/spsc_queue.h:33-33 | the load of tail_ is the machine's step |
| SpscQueue.Ring.TestFree | include/spsc_queue.h:34-36 | the fullness test is the machine's step |
| SpscQueue.Ring.Construct | include/spsc_queue.h:38-39 | constructing the object is the machine's step |
| SpscQueue.Ring.PublishTail | include/spsc_queue.h:41-42 | publishing the new tail is the machine's step |
| SpscQueue.Ring.LoadHead | include/spsc_queue.h:49-49 | the load of head_ is the machine's step |
| SpscQueue.Ring.TestFull | include/spsc_queue.h:50-52 | the emptiness test is the machine's step |
| SpscQueue.Ring.MoveOut | include/spsc_queue.h:53-53 | returns the front of the FIFO and leaves a moved-from object in its slot |
| SpscQueue.Ring.DestroyMoved | include/spsc_queue.h:54-54 | destroying the moved object is the machine's step |
| SpscQueue.Ring.Advance | include/spsc_queue.h:55-56 | publishing the new head is the machine's step |
| SpscQueue.Ring.Emplace | include/spsc_queue.h:27-43 | the whole call: true exactly when there was room, and then the value is last in the FIFO |
| SpscQueue.Ring.Pop | include/spsc_queue.h:45-57 | the whole call: empty-handed exactly when the FIFO is empty, else the front is returned, delivered and gone |
| SpscQueue.Ring.Drain | src/rpc_conn_comp.cpp:37-46 | OnUpdate's loop ends and hands on all that was accepted, in order |
| SpscQueue.Ring.Destroy | include/spsc_queue.h:19-25 | the destructor destroys each remaining object once, in order, and leaves no live one |
| Deque.PlusIsIncTimes | include/deque.h:71-115 | the chunk-jumping += n is n single ++ steps |
| Deque.DecUndoesInc | include/deque.h:71-95 | -- undoes ++ and ++ undoes -- |
| Deque.Deque.constructor | include/deque.h:144-166 | n copies of the value, in chunks that are all owned |
| Deque.Deque.CopyFrom | include/deque.h:168-197 | equal contents and layout, no shared chunk |
| Deque.Deque.CloneChunks | include/deque.h:174-196 | a new chunk for every chunk, with the same cells, copied only between start and finish |
| Deque.Deque.ReallocateMap | include/deque.h:415-428 | the map grows and re-centres, with a free node on both sides; contents and chunks stay |
| Deque.Deque.AddBackCapacity | include/deque.h:408-413 | afterwards the node past finish holds a new chunk |
| Deque.Deque.AddFrontCapacity | include/deque.h:401-406 | afterwards the node before start holds a new chunk |
| Deque.Deque.PushBack | include/deque.h:290-304 | contents gain the value at the back; allocated chunks stay exactly the distinct ones from start to finish |
| Deque.Deque.PushFront | include/deque.h:316-330 | contents gain the value at the front, likewise |
| Deque.Deque.PopBack | include/deque.h:342-348 | contents lose the last value; a chunk given up is freed |
| Deque.Deque.PopFront | include/deque.h:350-356 | contents lose the first value, likewise |
| Deque.Deque.Size | include/deque.h:391-395 | the length of the contents |
| Deque.Deque.At | include/deque.h:382-387 | element n, or out of range exactly when n is not below the size |
| Deque.Deque.Destroy | include/deque.h:268-288 | destroys the elements and frees every chunk exactly once, so none is left |
| Deque.Run | include/deque.h:290-395 | every run of pushes, pops, reads and size shows what the sequence shows, and after the destructor nothing is leaked |
| HashMap.UniqueKeys | include/hashmap.h:193-213 | an occupied key is in one slot only |
| HashMap.RepresentsUnique | include/hashmap.h:159-168 | a table stands for one map |
| HashMap.FoundUnoccupied | include/hashmap.h:201-212 | meeting the key in an unoccupied slot first means that it is not in the map |
| HashMap.InsertFresh | include/hashmap.h:149-154 | storing a new key at the first free slot of its path keeps the probe invariant and adds one binding |
| HashMap.InsertAtHole | include/hashmap.h:104-114 | what storing at the first hole makes of the table: a map table if and only if the key was not beyond it |
| HashMap.ProbeOrder | include/hashmap.h:149-152 | probing for a key visits slots hash, hash + 1, ... modulo the capacity, in that order |
| HashMap.FirstFreeMeans | include/hashmap.h:149-153 | an insertion stops at the first unoccupied slot of that sequence |
| HashMap.OverloadedMeans | include/hashmap.h:171-171 | a rehash is due if and only if the fill ratio has reached the load factor, and always at capacity 0 |
| HashMap.RoomIffLoadFactor | include/hashmap.h:171-171 | a slot to insert into is guaranteed for all sizes and capacities if and only if the load factor is at most 1 |
| HashMap.FullTableHasNoStop | include/hashmap.h:149-152 | an insertion probe has a free slot to stop at if and only if fewer keys than slots are stored |
| HashMap.Map.constructor | include/hashmap.h:14-20 | an empty map, whatever keys the storage holds |
| HashMap.Create | include/hashmap.h:14-20 | a map exactly when the capacity is not 0, which the source answers with an exception |
| HashMap.Map.MoveFrom | include/hashmap.h:33-42 | takes the contents and leaves an empty map of capacity 0 |
| HashMap.Map.FindIndex | include/hashmap.h:193-213 | a slot exactly when the key is in the map, and then the one that stores it |
| HashMap.Map.Contains | include/hashmap.h:129-129 | true exactly when the key is in the map |
| HashMap.Map.ProbeFree | include/hashmap.h:149-152 | ends, at the first free slot of the key's path |
| HashMap.Map.Rehash | include/hashmap.h:174-190 | the same map in a table of twice the slots (16 from capacity 0), with no junk before any key |
| HashMap.Map.Index | include/hashmap.h:140-156 | the key's slot; a missing key is added with the default value, after a rehash exactly when one is due |
| HashMap.Map.Assign | include/hashmap.h:140-156 | assignment through operator[] updates exactly that binding |
| HashMap.Map.Erase | include/hashmap.h:118-126 | removes exactly that binding, or reports out of range exactly when it is missing; the key stays in the slot |
| HashMap.Map.InsertProbe | include/hashmap.h:104-115 | keeps a valid table if and only if the key is not stored beyond a hole; otherwise the key is in two slots and size exceeds the number of bindings by one |
| HashMap.Map.Insert | include/hashmap.h:99-115 | valid afterwards if and only if it rehashes, or no hole precedes the key; erase-free tables stay hole-free |
| HashMap.Run | include/hashmap.h:99-156 | every run of operator[], erase, contains and size, and every erase-free run with insert, shows what the mathematical map shows, for any hash and any junk |
| HashMap.CollideAndErase | include/hashmap.h:118-126 | a run that leaves a hole before a key |
| HashMap.InsertAfterEraseWitness | include/hashmap.h:99-126 | a run in which inserting after an erase leaves a key in two occupied slots and counts it twice |
| BinaryHeap.TopLeast | 3rd/llbc/llbc/include/llbc/core/timer/BinaryHeapInl.h:71-76 | in an ordered array no element precedes the first |
| BinaryHeap.SinkStep | 3rd/llbc/llbc/include/llbc/core/timer/BinaryHeapInl.h:247-265 | moving an element below its lesser child leaves only that element out of place |
| BinaryHeap.RiseStep | 3rd/llbc/llbc/include/llbc/core/timer/BinaryHeapInl.h:78-91 | moving an element above its parent leaves only that element out of place |
| BinaryHeap.Heap.constructor | 3rd/llbc/llbc/include/llbc/core/timer/BinaryHeapInl.h:26-31 | an empty heap |
| BinaryHeap.Heap.FromElements | 3rd/llbc/llbc/include/llbc/core/timer/BinaryHeapInl.h:33-43 | an ordered heap of exactly the given elements |
| BinaryHeap.Heap.Top | 3rd/llbc/llbc/include/llbc/core/timer/BinaryHeapInl.h:71-76 | an element that no element precedes |
| BinaryHeap.Heap.Insert | 3rd/llbc/llbc/include/llbc/core/timer/BinaryHeapInl.h:78-91 | ordered, with exactly one more element |
| BinaryHeap.Heap.DeleteTop | 3rd/llbc/llbc/include/llbc/core/timer/BinaryHeapInl.h:93-110 | ordered, without the top; reports an empty heap |
| BinaryHeap.Heap.PercolateDown | 3rd/llbc/llbc/include/llbc/core/timer/BinaryHeapInl.h:247-265 | restores the order from the given position, with the same elements |
| CoroMgr.UidFormula | src/rpc_coro_mgr.h:57-59 | a closed form for the k-th identifier, across the 64-bit wrap |
| CoroMgr.UidPeriod | src/rpc_coro_mgr.h:57-59 | identifiers are never 0, and two agree if and only if they are a multiple of 2^64 - 1 draws apart |
| CoroMgr.NextInv | src/rpc_coro_mgr.cpp:5-48 | every event keeps the invariant: registered uids, a timeout entry for each suspended call, one resumption at most |
| CoroMgr.ExactlyOnceResume | src/rpc_coro_mgr.cpp:5-48 | in every run a call's coroutine is unresumed while suspended and not being killed, and resumed exactly once after that |
| CoroMgr.LateResponse | src/rpc_service_mgr.cpp:110-118 | a response to a call already resumed, or to none, changes nothing |
| CoroMgr.OnlyCoroutineContexts | src/rpc_service_mgr.cpp:120-121 | the blocking-controller branch of HandleRpcRsp is unreachable |
| CoroMgr.KillKeepsOnceIff | src/rpc_coro_mgr.cpp:18-22 | a kill keeps the one-resumption rule if and only if no kill of that coroutine is in progress |
| CoroMgr.KilledTwice | src/rpc_coro_mgr.cpp:10-22 | a run in which a coroutine is resumed twice |
| CoroMgr.IdleSuspended | src/rpc_coro_mgr.cpp:5-8 | between resumptions a suspended call is unresumed and has its timeout entry |
| CoroMgr.SweepShrinks | src/rpc_coro_mgr.cpp:24-38 | no event adds to what a sweep has to take and each entry it takes leaves less, so it ends although resumed coroutines issue calls |
| CoroMgr.SweepGoesOn | src/rpc_coro_mgr.cpp:24-38 | between resumptions a sweep can stop if and only if nothing is due, and can otherwise take a least entry |
| CoroMgr.SweepLeavesNoneExpired | src/rpc_coro_mgr.cpp:24-38 | a finished sweep leaves no suspended call whose deadline has passed |
| CoroMgr.SweepResumesExpiredOnly | src/rpc_coro_mgr.cpp:24-38 | a sweep resumes only suspended calls whose deadline has passed, with the timeout failure |
| CoroObject.RpcCoroMgr.AddCoroContext | src/rpc_coro_mgr.cpp:5-8 | the timeout is queued in any case, the context registered exactly when its uid is new |
| CoroObject.RpcCoroMgr.CallMethod | src/rpc_channel.cpp:64-74 | the uid is the number of calls so far and new to the map, and its context is registered with a deadline ten seconds ahead |
| CoroObject.RpcCoroMgr.UserCode | src/rpc_coro_mgr.cpp:18-22 | resumed code that waits, calls and kills, nested to any depth: suspended calls stay as they are unless one of its kills resumed them, once; new calls have new uids; nothing more becomes due |
| CoroObject.RpcCoroMgr.KillContext | src/rpc_coro_mgr.cpp:18-22 | at any depth of resumptions: user code runs, then the uid is erased; the other calls are as user code leaves them |
| CoroObject.RpcCoroMgr.KillCoro | src/rpc_coro_mgr.cpp:10-22 | from inside or outside a coroutine: a suspended call is resumed once with the given failure, its controller failed, and is gone afterwards; an unknown uid changes nothing |
| CoroObject.RpcCoroMgr.PopCoroContext | src/rpc_coro_mgr.cpp:40-48 | the context, if any, and the map without it |
| CoroObject.RpcCoroMgr.HandleCoroTimeout | src/rpc_coro_mgr.cpp:24-38 | the loop ends; then no suspended deadline has passed, and each call suspended before is untouched or was resumed exactly once with its controller failed, for its timeout if it had expired or by a kill of user code |
| CoroObject.RpcCoroMgr.CallAndSweep | src/rpc_coro_mgr.h:61-61 | a call is untouched by a sweep begun less than 10000 ms after it and resumed with the timeout failure by one begun then or later |
| CoroObject.ResponseMeans | src/rpc_service_mgr.cpp:110-151 | the state after a response in each of its five cases: status, failed controller, no slot, unreadable, reply |
| CoroObject.RpcCoroMgr.BeginRsp | src/rpc_service_mgr.cpp:110-151 | what is resumed, what it finds and which controller has failed when user code starts, case by case |
| CoroObject.RpcCoroMgr.HandleRpcRsp | src/rpc_service_mgr.cpp:101-152 | a suspended call is resumed once: "rpc failed" on a non-zero status and "read rsp failed" on an unreadable message, with the controller failed; else already failed, no response or the reply; any other response changes nothing |
| RpcPacket.NumberRoundTrip | src/rpc_channel.cpp:11-36 | a 64-bit sequence number survives its eight bytes in network order |
| RpcPacket.BlobRoundTrip | 3rd/llbc/llbc/include/llbc/common/Stream.h:330-344 | reading a string or message gives back what was written if and only if its length fits the 32-bit length field |
| RpcPacket.HeadRoundTrip | src/rpc_channel.cpp:11-36 | reading the bytes of a packet head gives back what was written and leaves what follows |
| RpcPacket.HeadLayout | src/rpc_channel.h:20-31 | which bytes of a head hold the sequence number, the service name and the method name |
| RpcProtocol.ReplyFromResponse | src/rpc_service_mgr.cpp:110-151 | only a response carrying a call's uid makes its coroutine find a reply, and then that response's body |
| RpcProtocol.TakeInv | src/rpc_service_mgr.cpp:62-99 | every step of every process keeps: requests, tasks, answers and replies all carry the uid, connection and request of one and the same call |
| RpcProtocol.EndToEnd | src/rpc_service_mgr.cpp:89-192 | in every run a coroutine that found a reply was resumed once, with the message a served method left for the very request of its own call, connection and uid |
| RpcProtocol.FailureInvisible | src/rpc_conn_comp.cpp:48-55 | a suspended coroutine reached by an answer finds the reply if and only if its controller has not failed, it wants a response and that parses, whether or not the service method failed |
| RpcProtocol.UndisturbedExchange | src/rpc_channel.cpp:64-99 | from every reachable world a call that is sent, served, answered and delivered finds its reply |
| RpcProtocol.InvokeMeans | src/rpc_channel.cpp:64-99 | a call is registered whether or not its packet is sent, and the network gains exactly its request if it is |
| RpcProtocol.AcceptMeans | src/rpc_service_mgr.cpp:62-99 | a request is taken up exactly when its method is served and its message parses |
| RpcProtocol.ResponsePacketMeans | src/rpc_service_mgr.cpp:177-192 | the response carries the request's head, connection and the reply, and status -1 exactly when the method failed |
| Scheduler.NextInv | include/scheduler.h:33-257 | every critical section, notification and wakeup keeps conservation, order, id map and wakeup invariant |
| Scheduler.NoLostWakeup | include/scheduler.h:53-94 | while some worker sleeps, queued tasks do not outnumber owed notifications and awake workers; if all sleep, a queued task means an owed notify_one; a sleeper of a stopped pool is owed a notify_all |
| Scheduler.StuckOnlyWhenEmpty | include/scheduler.h:65-86 | a pool whose workers and notifiers cannot go on has no task queued |
| Scheduler.AddMeans | include/scheduler.h:189-201 | an add is accepted exactly when the pool is not stopped and, for the timer, no pending event has its trigger time; then exactly one new task is accepted and pending and one notification owed, else nothing of that changes |
| Scheduler.EachTaskOnce | include/scheduler.h:37-86 | an accepted task is exactly one of queued, cancelled, being executed and executed, once |
| Scheduler.StoppedIff | include/scheduler.h:88-94 | a pool is stopped if and only if stop was called in its run |
| Scheduler.AfterStop | include/scheduler.h:54-73 | after a call of stop no continuation accepts a task, and a worker that finds nothing pending leaves its loop |
| Scheduler.NoneAfterStop | include/scheduler.h:54-56 | after stop no run of any length accepts a task |
| Scheduler.Drained | include/scheduler.h:65-86 | once execute has returned false, every accepted task was dequeued exactly once or cancelled, in acceptance order for FIFO, and nothing is accepted any more |
| Scheduler.JoinedPool | include/thread_pool.h:34-84 | after all workers, of which there is one at least, have exited, every accepted task has run exactly once, save cancelled ones |
| Scheduler.FifoOrder | include/scheduler.h:53-79 | tasks are dequeued in the order of their acceptance |
| Scheduler.LifoNewest | include/scheduler.h:117-142 | when a task is dequeued, every task accepted after it has been dequeued |
| Scheduler.TimerBijection | include/scheduler.h:171-234 | pending events and id map are in bijection, with pairwise distinct trigger times |
| Scheduler.TimerEarliest | include/scheduler.h:204-215 | execute takes the event that triggers before all other pending ones |
| Scheduler.AcceptedIdsDistinct | include/scheduler.h:186-197 | no timer id is accepted twice |
| Scheduler.EachIdOnce | include/scheduler.h:171-234 | an accepted timer id is exactly one of pending, cancelled and taken, any other id none of them, and the id map knows exactly the pending ones |
| Scheduler.CancelledNeverRuns | include/scheduler.h:228-234 | after a pending id is cancelled, no event with that id is pending, dequeued or executed in any continuation |
| Scheduler.DrainBound | include/thread_pool.h:77-84 | a stopped pool can take only so many effective steps, however it is scheduled |
| Scheduler.DrainGoesOn | include/thread_pool.h:77-84 | while a worker of a stopped pool has not exited, some effective step exists |
| Scheduler.DrainEnds | include/thread_pool.h:77-84 | the joins return: after a call of stop a pool comes to rest in boundedly many effective steps under any schedule, and at rest every worker has exited and every accepted task has run once or was cancelled |
| SchedulerObject.InTurnAt | include/scheduler.h:137-142 | one worker empties a stack from the newest task to the oldest and the other containers from the front |
| SchedulerObject.TaskScheduler.DrawId | include/scheduler.h:186-186 | the next id, drawn once |
| SchedulerObject.TaskScheduler.Insert | include/scheduler.h:189-197 | accepted exactly when not stopped and, for the timer, no pending event has that trigger time; then the containers gain exactly that task, else nothing changes |
| SchedulerObject.TaskScheduler.Enter | include/scheduler.h:65-80 | takes the task the discipline says out of the containers, or waits, or quits exactly when stopped and empty |
| SchedulerObject.TaskScheduler.Cancel | include/scheduler.h:228-234 | removes exactly the event with that id from both containers, or changes nothing |
| SchedulerObject.TaskScheduler.Stop | include/scheduler.h:88-94 | sets the stop flag and leaves the containers |
| SchedulerObject.TaskScheduler.Work | include/thread_pool.h:36-43 | a worker's loop on a stopped scheduler executes all that is left, in the discipline's order, and ends |
| Poller.NextInv | 3rd/llbc/llbc/src/comm/BasePoller.cpp:196-365 | every step of any thread or poller keeps every session where it belongs |
| Poller.ExactlyOnePlace | 3rd/llbc/llbc/src/comm/PollerMgr.cpp:121-332 | a live session is in exactly one place, at poller id % n if at any; a session that is not live is nowhere |
| Poller.OnlyEndingsEnd | 3rd/llbc/llbc/src/comm/EpollPoller.cpp:116-381 | a live session ends if and only if its connection fails, it hangs up, a close finds it or a send or control request to it fails; only drawing the next id makes one live |
| Poller.RequestsRouted | 3rd/llbc/llbc/src/comm/PollerMgr.cpp:296-332 | every queued event for a session is at poller id % n |
| PollerRequests.RequestFinds | 3rd/llbc/llbc/src/comm/BasePoller.cpp:211-287 | a request pushed when its poller had the session in any form never overtakes the arrival: handled, it finds the session if and only if that has not ended and is not still connecting |
| PollerRequests.ConnectingIgnores | 3rd/llbc/llbc/src/comm/BasePoller.cpp:227-234 | a request, close included, to a session still connecting changes nothing but the queue, and the connection can go on to be established |
| PollerRequests.StepForward | 3rd/llbc/llbc/src/comm/BasePoller.cpp:196-365 | a session at a poller stays where it is, reaches a table or ends, and no id comes back |
| PollerRequests.RequestMeans | 3rd/llbc/llbc/src/comm/BasePoller.cpp:211-287 | a handled close ends the session it finds whatever the answer, a send or control request only on failure; an ended session is in no place, and otherwise tables and sockets stay |
| PollerRequests.ArrivalMeans | 3rd/llbc/llbc/src/comm/EpollPoller.cpp:116-157 | an arriving socket enters both tables; an asynchronous connect does so on success, waits in the connecting table if it would block, and is dropped on failure |
| PollerRequests.FinishMeans | 3rd/llbc/llbc/src/comm/EpollPoller.cpp:324-362 | a finished connect leaves the connecting table and enters the other two exactly when it succeeded |
| Poller.SocketsInSync | 3rd/llbc/llbc/src/comm/BasePoller.cpp:331-365 | with every poller between two events, session and socket tables are inverse to each other and no handle is in two tables or pollers |
| PollerObject.BasePoller.AddSession | 3rd/llbc/llbc/src/comm/BasePoller.cpp:331-341 | both tables gain the session, existing entries stay |
| PollerObject.BasePoller.RemoveSession | 3rd/llbc/llbc/src/comm/BasePoller.cpp:360-365 | both tables lose the session |
| PollerObject.PollerMgr.Init | 3rd/llbc/llbc/src/comm/PollerMgr.cpp:90-119 | new, distinct, empty pollers; fails for a count of 0 or a second time |
| PollerObject.PollerMgr.Start | 3rd/llbc/llbc/src/comm/PollerMgr.cpp:121-154 | every pending session is handed to its poller by exactly one flush step, nothing else happens, and none stays pending; fails without pollers |
| PollerObject.PollerMgr.Open | 3rd/llbc/llbc/src/comm/PollerMgr.cpp:216-266 | the next id; exactly poller id % n gains exactly the add-socket event, or the session pends if there are no pollers |
| PollerObject.PollerMgr.AsyncConn | 3rd/llbc/llbc/src/comm/PollerMgr.cpp:268-294 | the next id; exactly poller id % n gains exactly the connect event, or the connection pends |
| PollerObject.PollerMgr.AddToPoller | 3rd/llbc/llbc/src/comm/BasePoller.cpp:309-328 | a session is added here if it belongs here and pushed to its own poller if not; no other poller changes |
| PollerObject.PollerMgr.Accept | 3rd/llbc/llbc/src/comm/EpollPoller.cpp:364-381 | an accepted session gets the next id and reaches its poller |
| PollerObject.PollerMgr.Request | 3rd/llbc/llbc/src/comm/PollerMgr.cpp:296-314 | exactly poller id % n gains exactly the request |
| PollerObject.BasePoller.HandleFirst | 3rd/llbc/llbc/src/comm/BasePoller.cpp:182-287 | for every kind of event and answer, the new queue and tables written out |
| PollerObject.PollerMgr.HandleEvent | 3rd/llbc/llbc/src/comm/BasePoller.cpp:182-287 | handling one queued event is the machine's step |
| PollerObject.PollerMgr.HandleConnecting | 3rd/llbc/llbc/src/comm/EpollPoller.cpp:324-362 | a connecting handle becomes a session or goes; other handles are not found |
| HeaderAssembler.Assembler.constructor | 3rd/llbc/llbc/src/comm/PacketHeaderAssembler.cpp:30-36 | nothing received yet |
| HeaderAssembler.Assembler.Assemble | 3rd/llbc/llbc/src/comm/PacketHeaderAssembler.cpp:43-68 | takes exactly the bytes still needed or all there are, and is done exactly when the header is complete |
| HeaderAssembler.Assembler.Reset | 3rd/llbc/llbc/src/comm/PacketHeaderAssembler.cpp:70-73 | nothing received, as after construction |
| HeaderAssembler.Assembler.Feed | 3rd/llbc/llbc/src/comm/PacketHeaderAssembler.cpp:43-73 | for any split into pieces: complete if and only if enough bytes came, the buffer is the stream's first bytes, and the used counts add up to what was needed |
| Bytes.BigAt | 3rd/llbc/llbc/include/llbc/comm/PacketInl.h:645-670 | network order: byte 0 is the most significant |
| Bytes.FromBigFirst | 3rd/llbc/llbc/include/llbc/comm/PacketInl.h:645-670 | reading counts byte 0 as the most significant |
| PacketHeader.Layout | 3rd/llbc/llbc/src/comm/protocol/PacketProtocol.cpp:111-117 | which of the 28 bytes hold which field |
| PacketHeader.HeaderRoundTrip | 3rd/llbc/llbc/src/comm/PacketHeaderAssembler.cpp:75-103 | reading the 28 bytes Send writes gives back every field, with the length modulo 2^32 and status and flags modulo 2^16 |
| PacketHeader.FieldsSurviveIff | 3rd/llbc/llbc/src/comm/protocol/PacketProtocol.cpp:88-117 | the fields survive if and only if status and flags are unsigned 16-bit numbers; -1 arrives as 65535 |
| PacketProtocol.RunAppend | 3rd/llbc/llbc/src/comm/protocol/PacketProtocol.cpp:128-220 | the byte-by-byte decoder does not see how a stream is cut |
| PacketProtocol.DecodeEncode | 3rd/llbc/llbc/src/comm/protocol/PacketProtocol.cpp:128-220 | decoding the bytes of any packets whose header gives their length yields exactly those packets and leaves nothing over |
| PacketProtocol.Protocol.ReadHeader | 3rd/llbc/llbc/src/comm/protocol/PacketProtocol.cpp:142-189 | the header half of the loop agrees with the byte-by-byte decoder |
| PacketProtocol.Protocol.ReadPayload | 3rd/llbc/llbc/src/comm/protocol/PacketProtocol.cpp:191-217 | the payload half agrees with it, also for empty payloads |
| PacketProtocol.Protocol.Recv | 3rd/llbc/llbc/src/comm/protocol/PacketProtocol.cpp:128-220 | a block is decoded exactly as byte by byte, except that a block with a bad header yields nothing |
| PacketProtocol.Protocol.RecvAll | 3rd/llbc/llbc/src/comm/protocol/PacketProtocol.cpp:128-220 | for any split into blocks the packets handed on are those of the whole stream up to the failing block, and it fails if and only if the stream has a bad header |
| PacketProtocol.SentFitsIff | 3rd/llbc/llbc/src/comm/protocol/PacketProtocol.cpp:84-172 | a packet sent can be framed by the receiver if and only if its length is within the receiver's limit and below 2^32 |
| PacketProtocol.BadLengthIff | 3rd/llbc/llbc/src/comm/protocol/PacketProtocol.cpp:153-171 | a header makes the receiver give up if and only if its length field is below 28 or above the limit |
| PacketProtocol.SendAndReceive | 3rd/llbc/llbc/src/comm/protocol/PacketProtocol.cpp:84-220 | however the bytes of the messages sent are cut into blocks, receiving gives exactly those messages, in order, with status and flags cut to 16 bits |
| PacketProtocol.BadHeaderLoses | 3rd/llbc/llbc/src/comm/protocol/PacketProtocol.cpp:155-171 | packets in one block with a bad header are lost, packets in a block of their own are not |

## Left out

- Weak memory and the wrap of the 64-bit queue counters: steps are sequentially consistent, counters unbounded.
- The MPMC queue's destructor (it destroys every slot whatever it holds), its size() and empty(), and constructors that throw.
- SPSCQueue::size(): its test for a negative unsigned value never fires, so it is not a length.
- The drain loop of OnUpdate is any number of pops of the machine; delivery of a received packet when the receive queue is full is not promised by the code (src/rpc_conn_comp.cpp:54).
- Deque backward jumps (-=, back()), erase, move construction and assignment: += divides a wrapped unsigned offset, erase needs iterator parts that are missing, moves only transfer pointers.
- Pops of an empty deque, which the source leaves undefined, are excluded by a precondition.
- HashMap insert(const Key&, const Value&), which names fields that do not exist, and copies of maps.
- HashMap load factors are reals; the rounding of a double product is not modelled.  Insertion needs a free slot, which a load factor above 1 does not guarantee (see HashMap.RoomIffLoadFactor); the source would probe forever.
- BinaryHeap DeleteElem, copies and MakeEmpty: nothing modelled here calls them.
- CoroMgr runs issue at most 2^64 - 1 calls, after which identifiers repeat; null handles and controllers and re-entrant updates are excluded.
- CoroObject.RpcCoroMgr.UserCode: it does not kill a coroutine whose kill is in progress; what such a kill does is CoroMgr.KillKeepsOnceIff.
- Blocking calls, which match no sequence number and must not be mixed with coroutine calls.
- RpcProtocol models the server's handlers on values: request and response messages are not allocated and released.  Names and messages are shorter than 2^32 bytes, as their length fields need (RpcPacket.BlobRoundTrip); whether bytes parse as a protobuf message is an input.
- Time in the schedulers: a timer worker's sleep until the trigger time is part of executing the task.  A pool with no workers runs nothing.
- Stopping and finalizing pollers, wrapped session ids, the IOCP and select pollers, and what a session does with its bytes.
- Poller.SocketsInSync: a closing session's socket is closed shortly before its tables are cleared (Session.cpp:228-241), in which time another poller may get the same handle; the model handles an event in one step and says nothing about that window.
- SchedulerObject.TaskScheduler.Work: one worker alone on a stopped scheduler; all interleavings of workers are Scheduler.DrainEnds.
- The registry, ZooKeeper, sockets, logging, generated stubs, Vector and String: foreign code or easy members.
