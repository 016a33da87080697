# libfiber distributed scheduler, time-difference helpers and pbzip2 error context

This project models three pieces of C and C++ code in Dafny.

- **libfiber's distributed scheduler** (`fiber_scheduler_dist.c`). The
  runtime keeps one scheduler per OS thread. Each scheduler has a FIFO of
  queue nodes, an identifier and two steal counters.
  - `schedule` detaches a fiber's node and pushes it onto a queue.
  - `next` pops nodes until it finds a fiber that is not SAVING its context.
    The SAVING ones go back on the tail. The chosen fiber gets its node back.
  - `load_balance` scans the other schedulers round-robin and moves up to 16
    nodes from the heads of their queues to the tail of the local queue.
  - `change` (the manager's migration path) demotes the running fiber to
    READY and pushes it onto the scheduler its cpuset names. It then switches
    to the next local fiber, or to the maintenance fiber when there is none.

  The scheduler table is an `array` of scheduler records
  (`FiberSchedulerDist.Runtime`), updated in place by methods with loops.
  The fibers are a map from handle to the fields the scheduler touches. Each
  method is proved against value-level functions in `SchedulerSpec`:
  - `FirstRunnable` and `Requeued` for `next`;
  - `Peer`, `StealPeer`, `Balance`, `Stolen` and `FailedSteals` for
    `load_balance`.

  The whole-table invariant `ValidState` says three things:
  - scheduler `i` carries identifier `i`;
  - every queue node has exactly one owner: a single queue slot or a single
    fiber;
  - the handle and node allocators are ahead of everything in use.

  Every operation preserves it. `load_balance` also conserves the multiset
  of queued nodes.
- **libfiber's `measure_time.h`**:
  - `TimeSpecDiff` is a pure function.
  - `timeval_subtract` is a method. It normalises `y` in place and writes
    `result`.
- **pbzip2's `ErrorContext`**: a lazily created singleton recording the
  first non-zero `errno` and the `errno` read by the latest `saveError`,
  which may be 0. `saveError` and `reset` are
  methods on a class. They are proved against the function `AfterSave`, and
  the history of calls is folded by `Run`. Lemmas over `Run` show:
  - `first` is sticky until a reset;
  - `last` is the `errno` read by the latest `saveError`, even when it is 0;
  - a reset forgets everything before it.

Files: `wrappers.dfy` (Option), `measure_time.dfy`, `error_context.dfy`,
`scheduler_spec.dfy`, `scheduler_dist.dfy`.

Two points of the code fix the model's shape:
- `load_balance` has one steal budget of 16 for the whole call, not one per
  peer. `max_steal` is declared once (`fiber_scheduler_dist.c:110`) and
  decremented at 128. A peer reached after the budget is spent is never
  popped and counts no failed steal.
- The `while(1)` loop of `fiber_scheduler_change` breaks in both branches,
  so it is modelled as running its body once.

## Model

| member | source | states |
|---|---|---|
| SchedulerSpec.DistInit | libfiber-master/src/fiber_scheduler_dist.c:37-47 | a freshly initialised scheduler has an empty queue, the given id and both counters at 0 |
| FiberSchedulerDist.Runtime.constructor | libfiber-master/src/fiber_scheduler_dist.c:49-64 | needs at least one thread; afterwards there are `numThreads` schedulers, scheduler i has id i, an empty queue and zero counters, and the invariant holds |
| SchedulerSpec.InitValid | libfiber-master/src/fiber_scheduler_dist.c:49-64 | a table of freshly initialised schedulers with no fibers satisfies the single-ownership invariant |
| FiberSchedulerDist.Runtime.ForThread | libfiber-master/src/fiber_scheduler_dist.c:66-71 | needs thread_id < number of threads; returns the scheduler whose id is thread_id |
| FiberSchedulerDist.Runtime.Schedule | libfiber-master/src/fiber_scheduler_dist.c:73-82 | needs the fiber to hold a node; afterwards the fiber's node is NULL, a node carrying that node's identity and the fiber is at the tail of the queue, all other queues are unchanged, and the invariant holds |
| SchedulerSpec.ScheduleKeepsOwned | libfiber-master/src/fiber_scheduler_dist.c:77-81 | moving a fiber's node from the fiber into a queue keeps every node singly owned |
| SchedulerSpec.ScheduleKeepsAllocated | libfiber-master/src/fiber_scheduler_dist.c:77-81 | schedule keeps the allocators ahead of every fiber and node in use |
| SchedulerSpec.ScheduleKeepsValid | libfiber-master/src/fiber_scheduler_dist.c:73-82 | schedule preserves the whole-table invariant |
| FiberSchedulerDist.Runtime.TryPop | libfiber-master/src/fiber_scheduler_dist.c:91 | trypop returns EMPTY exactly when the queue is empty; otherwise it returns the head and leaves the tail; no other queue changes |
| FiberSchedulerDist.Runtime.Push | libfiber-master/src/fiber_scheduler_dist.c:98 | push appends the node at the tail and changes no other queue |
| FiberSchedulerDist.Runtime.PopRunnable | libfiber-master/src/fiber_scheduler_dist.c:89-104 | the loop returns nothing exactly when the queue is empty; otherwise it returns the first node whose fiber is not SAVING, and the queue becomes the nodes after it followed by the SAVING nodes popped before it, in their original order |
| SchedulerSpec.FirstRunnable | libfiber-master/src/fiber_scheduler_dist.c:96-101 | the dispatched position holds a non-SAVING fiber and every earlier position a SAVING one |
| SchedulerSpec.RequeuedRotates | libfiber-master/src/fiber_scheduler_dist.c:91-98 | popping the head and pushing it on the tail t times rotates the queue by t |
| SchedulerSpec.RequeuedHead | libfiber-master/src/fiber_scheduler_dist.c:91-98 | after t requeues the head is original node t and the rest is the rotation without it |
| SchedulerSpec.RotateRemoves | libfiber-master/src/fiber_scheduler_dist.c:89-103 | the queue left by next holds exactly the original nodes minus the dispatched one |
| FiberSchedulerDist.Runtime.Next | libfiber-master/src/fiber_scheduler_dist.c:84-105 | returns NULL exactly when the queue is empty, changing nothing; otherwise returns the first non-SAVING fiber, reattaches its node, removes exactly that node from the queue's multiset, requeues the SAVING nodes before it, leaves other queues and the counters unchanged, and keeps the invariant |
| SchedulerSpec.NextTerminatesSameSaving | libfiber-master/src/fiber_scheduler_dist.c:97 | whether next finishes depends only on which fibers are SAVING |
| SchedulerSpec.FirstRunnableSameSaving | libfiber-master/src/fiber_scheduler_dist.c:97 | which node next dispatches depends only on which fibers are SAVING |
| SchedulerSpec.QueuedFibersKnown | libfiber-master/src/fiber_scheduler_dist.c:96 | under the invariant every queued node's data is a known fiber |
| SchedulerSpec.DispatchKeepsOwned | libfiber-master/src/fiber_scheduler_dist.c:100 | handing a queued node back to its fiber keeps every node singly owned |
| SchedulerSpec.DispatchKeepsAllocated | libfiber-master/src/fiber_scheduler_dist.c:100 | handing a node back keeps the allocators ahead |
| SchedulerSpec.DispatchKeepsValid | libfiber-master/src/fiber_scheduler_dist.c:91-101 | removing one node from a queue and reattaching it to its fiber preserves the whole-table invariant |
| SchedulerSpec.Peer | libfiber-master/src/fiber_scheduler_dist.c:111-115 | `(id + j) % n` for offsets 1..n-1 is a scheduler index other than the caller's own |
| SchedulerSpec.PeersVisitedOnce | libfiber-master/src/fiber_scheduler_dist.c:111-117 | the scan visits every other scheduler exactly once and never its own queue |
| SchedulerSpec.Taken | libfiber-master/src/fiber_scheduler_dist.c:121-128 | one peer visit moves all the peer holds or the whole remaining budget, whichever is smaller |
| SchedulerSpec.StealPeerEffect | libfiber-master/src/fiber_scheduler_dist.c:121-130 | one peer visit appends the peer's first k nodes to the local queue, drops them from the peer, adds k to steal_count, adds one failed steal exactly when the peer ran dry with budget left, and changes no other scheduler |
| FiberSchedulerDist.Runtime.StealFrom | libfiber-master/src/fiber_scheduler_dist.c:121-130 | the inner steal loop produces exactly the table and remaining budget of one peer visit |
| SchedulerSpec.Stolen | libfiber-master/src/fiber_scheduler_dist.c:110-130 | a scan moves at most the budget (16 per call) in total |
| SchedulerSpec.FailedSteals | libfiber-master/src/fiber_scheduler_dist.c:123-125 | a scan counts at most one failed steal per remaining peer |
| FiberSchedulerDist.Runtime.LoadBalance | libfiber-master/src/fiber_scheduler_dist.c:107-132 | the round-robin scan over offsets 1..n-1 with a shared budget of 16 yields exactly `Balance` of the old table, and the invariant holds |
| SchedulerSpec.QueuedTransfer | libfiber-master/src/fiber_scheduler_dist.c:122-127 | moving nodes from one queue to another leaves the union of all queues unchanged |
| SchedulerSpec.StealPeerLeavesRest | libfiber-master/src/fiber_scheduler_dist.c:114-131 | a visited peer is not visited again, so what the rest of the scan takes and counts is unaffected by the visit |
| SchedulerSpec.StealPeerConserves | libfiber-master/src/fiber_scheduler_dist.c:121-130 | one peer visit conserves the multiset of queued nodes |
| SchedulerSpec.BalanceConserves | libfiber-master/src/fiber_scheduler_dist.c:114-131 | load_balance conserves the multiset union of all queues |
| SchedulerSpec.BalanceLocal | libfiber-master/src/fiber_scheduler_dist.c:114-131 | the local queue becomes its old contents followed by the stolen nodes in pop order; steal_count grows by exactly their number and failed_steal_count by exactly the number of peers that ran dry |
| SchedulerSpec.StolenFrame | libfiber-master/src/fiber_scheduler_dist.c:114-131 | what the scan takes and how many failures it counts depend only on the queues of the peers not yet visited |
| SchedulerSpec.StealPeerPopsOnly | libfiber-master/src/fiber_scheduler_dist.c:122 | a peer visit only pops heads from schedulers other than the local one and never touches their counters |
| SchedulerSpec.BalancePeers | libfiber-master/src/fiber_scheduler_dist.c:114-131 | every other scheduler keeps its id and counters and is left with a suffix of its queue |
| SchedulerSpec.BalanceKeepsValid | libfiber-master/src/fiber_scheduler_dist.c:107-132 | load_balance preserves the whole-table invariant |
| FiberSchedulerDist.Runtime.Stats | libfiber-master/src/fiber_scheduler_dist.c:134-140 | adds the scheduler's counters to the caller's totals rather than overwriting them |
| FiberSchedulerDist.Runtime.SwitchTo | libfiber-master/src/fiber_scheduler_dist.c:142-149 | the manager's current fiber becomes the new fiber, whose state becomes RUNNING; nothing else changes |
| SchedulerSpec.SetStateKeepsOwned | libfiber-master/src/fiber_scheduler_dist.c:147 | a state change leaves every node's owner as it was |
| SchedulerSpec.SetStateKeepsValid | libfiber-master/src/fiber_scheduler_dist.c:147 | a state change preserves the whole-table invariant |
| SchedulerSpec.Demoted | libfiber-master/src/fiber_scheduler_dist.c:157-160 | a RUNNING fiber becomes READY; any other state is kept |
| FiberSchedulerDist.Runtime.Migrate | libfiber-master/src/fiber_scheduler_dist.c:155-166 | the current fiber is demoted, its node detached and appended to the queue its cpuset names; other queues and which fibers are SAVING are unchanged |
| FiberSchedulerDist.Runtime.CreateFiberNoSched | libfiber-master/src/fiber_scheduler_dist.c:177 | the maintenance fiber takes the next free handle and a fresh node, is READY with the given cpuset, sits on no queue, both allocators advance by one, and the invariant holds |
| SchedulerSpec.NewFiberKeepsOwned | libfiber-master/src/fiber_scheduler_dist.c:177 | a fiber with a fresh handle and a fresh node keeps single ownership and moves the allocators past both |
| SchedulerSpec.NewFiberKeepsValid | libfiber-master/src/fiber_scheduler_dist.c:177 | creating the maintenance fiber preserves the whole-table invariant |
| FiberSchedulerDist.Runtime.DispatchLocal | libfiber-master/src/fiber_scheduler_dist.c:171-174 | dispatches exactly when the local queue is non-empty: the manager's current fiber becomes the first non-SAVING fiber, whose record changes only to RUNNING with its node back, and the queue becomes what follows that node followed by the SAVING nodes skipped before it, in their order; the local scheduler keeps its id and counters; otherwise nothing changes |
| FiberSchedulerDist.Runtime.SwitchToMaintenance | libfiber-master/src/fiber_scheduler_dist.c:175-183 | the maintenance fiber is created only when the manager has none and is never recreated; the manager switches to it and it is RUNNING; an existing one changes only its state and the allocators stay put; a new one has the next handle, the next node and the local scheduler as cpuset |
| FiberSchedulerDist.Runtime.Resume | libfiber-master/src/fiber_scheduler_dist.c:168-185 | switches to next's fiber when the local queue is non-empty, else to the maintenance fiber; the incoming fiber's record changes only in state (and, when dispatched, in getting its node back) or is the fresh maintenance record; the allocators move only for a fresh maintenance fiber; after a dispatch the local queue is what followed the dispatched node followed by the skipped SAVING nodes, in order; only the incoming fiber and the local queue change, and the local scheduler keeps its id and counters |
| SchedulerSpec.OthersStayQueued | libfiber-master/src/fiber_scheduler_dist.c:166-174 | removing the dispatched node leaves every other queued node queued |
| FiberSchedulerDist.Runtime.Change | libfiber-master/src/fiber_scheduler_dist.c:151-186 | the outgoing fiber is demoted, loses its node and, unless dispatched again at once, sits on the queue its cpuset names; the manager then runs next's fiber, RUNNING and holding its node, with the local queue (after the push) become what followed that node followed by the skipped SAVING nodes, in order, or the maintenance fiber (created only when absent) when the local queue is empty; a fiber switched back to itself as the maintenance fiber is RUNNING with a NULL node; an existing incoming fiber keeps its cpuset and every field but state and node, a fresh one has the next handle and node; only the outgoing and incoming fibers change, only the local queue and the cpuset's queue change, the cpuset's queue gains exactly the pushed node, and the invariant holds |
| MeasureTime.TimeSpecDiff | libfiber-master/include/measure_time.h:22-32 | the result denotes ts1 - ts2 in nanoseconds; one second is borrowed exactly when ts1's nanoseconds are smaller; normalised inputs give a normalised result |
| MeasureTime.TimeSpecDiffCanonical | libfiber-master/include/measure_time.h:20-32 | with normalised inputs the result is the unique normalised timespec for the difference |
| MeasureTime.TimeSpecDiffNonNegative | libfiber-master/include/measure_time.h:20-32 | when ts1 is not earlier than ts2, as the header assumes, the seconds part is non-negative |
| MeasureTime.TimevalSubtract | libfiber-master/include/measure_time.h:38-59 | the carry steps keep the instant y denotes; the result denotes x minus the original y in microseconds with tv_usec in [0, 1000000] (below 1000000 for normalised inputs); returns 1 exactly when the result's seconds are negative; x is never written |
| Pbzip2ErrorContext.AfterSave | workloads/pbzip2-1.1.13/ErrorContext.cpp:65-83 | last ends as the errno read after the lock; a non-zero errno on entry becomes first when first was 0; otherwise first is unchanged |
| Pbzip2ErrorContext.RunAppend | workloads/pbzip2-1.1.13/ErrorContext.cpp:65-90 | running two call sequences one after another is running their concatenation |
| Pbzip2ErrorContext.RunFirst | workloads/pbzip2-1.1.13/ErrorContext.cpp:71-77 | without a reset, first ends as its old non-zero value, or else as the first non-zero errno any saveError saw |
| Pbzip2ErrorContext.FirstIsSticky | workloads/pbzip2-1.1.13/ErrorContext.cpp:73-77 | once first is non-zero, saveError never changes it |
| Pbzip2ErrorContext.FirstIsEarliestError | workloads/pbzip2-1.1.13/ErrorContext.cpp:71-77 | from a cleared context, first is the earliest non-zero errno |
| Pbzip2ErrorContext.LastIsLatestErrno | workloads/pbzip2-1.1.13/ErrorContext.cpp:73-80 | after any history, last is the errno read at the latest saveError's final store; the store of newerr into last never survives |
| Pbzip2ErrorContext.ResetForgetsHistory | workloads/pbzip2-1.1.13/ErrorContext.cpp:85-90 | a reset forgets every call made before it |
| Pbzip2ErrorContext.ErrorContext.constructor | workloads/pbzip2-1.1.13/ErrorContext.cpp:26 | a new context records no error |
| Pbzip2ErrorContext.ErrorContext.SaveError | workloads/pbzip2-1.1.13/ErrorContext.cpp:65-83 | the fields become `AfterSave` of the old fields and the two errno readings |
| Pbzip2ErrorContext.ErrorContext.Reset | workloads/pbzip2-1.1.13/ErrorContext.cpp:85-90 | both fields become 0 |
| Pbzip2ErrorContext.ErrorContextSingleton.GetInstance | workloads/pbzip2-1.1.13/ErrorContext.cpp:20-37 | creates a cleared context only when none exists, returns the existing one on later calls, and returns null (leaving the slot empty) when allocation fails |

## Left out

- Concurrency: the lock-free internals of `dist_fifo_push` and `dist_fifo_trypop` are not part of this model. The queue is a sequence; push appends and trypop takes the head or reports EMPTY. The RETRY outcome and the inter-thread races that the SAVING state guards against are not modelled, so the RETRY loop at `fiber_scheduler_dist.c:90-92` is a single pop. The fiber mutex calls in `ErrorContext.cpp` are no-ops.
- FiberSchedulerDist.Runtime.Next: requires `NextTerminates`, i.e. the queue is empty or holds a fiber that is not SAVING. Run sequentially on a queue of SAVING fibers only, the C loop requeues forever; in the real system another thread ends the SAVING state. The same requirement is carried by PopRunnable, DispatchLocal, Resume and Change.
- `fiber_context_swap` (register save and restore) is not part of this model; `SwitchTo` stops after setting the current fiber and its state.
- `fiber_create_no_sched`, `fiber_detach` and `fiber_manager_get` are not part of this model. FiberSchedulerDist.Runtime.CreateFiberNoSched stands in for the creation: it allocates a fresh fiber handle and a fresh node. Its READY state and its cpuset, the manager's own scheduler, are choices of this model, since `fiber_create_no_sched` is not part of this model and takes no cpuset argument; the guarantee of Resume and Change that a fresh maintenance fiber has the local scheduler as its cpuset rests on that choice. Detaching changes nothing the scheduler tracks, and re-reading the thread's manager after the switch is not modelled.
- `dist_fifo_init` is not part of this model; initialisation is modelled as always succeeding, so the `return 0` path of `fiber_scheduler_dist_init` and the assertion in `fiber_scheduler_init` are not reached.
- The `if(!remote_queue) continue;` test in `load_balance` is not modelled: the address of an array element is never NULL.
- The `printf` in `fiber_scheduler_change` and the `fprintf` in `getInstance` are output. `printErrnoMsg`, `syncPrintErrnoMsg` and `printErrorMessages` only print and are left out.
- Integer widths: `uint64_t` counters, `size_t` indices and C `int`/`long`/`time_t` time fields are unbounded integers; overflow is not modelled. In the two divisions of `timeval_subtract` the dividend is positive, so C's truncating division agrees with Dafny's.
- MeasureTime.TimevalSubtract: requires `result`, `x` and `y` to be distinct objects; calls that alias them are not modelled.
- `RDTSCP` and `SetAffinity` in `measure_time.h` are inline assembly and a system call, and are left out.
- `ErrorContext.h` is not part of this model; the two error fields and the `_instance` pointer are taken from their uses in `ErrorContext.cpp`. The singleton's static pointer is a field of `ErrorContextSingleton`.
- Pbzip2ErrorContext.ErrorContext.constructor: the zero initial values of both error fields come from the class's constructor in `ErrorContext.h`, which is not part of this model; they are assumed, not derived from `ErrorContext.cpp`.
- `errno` is read twice by `saveError`, before and after taking the lock. The two readings are separate inputs because the lock call may change `errno`.
