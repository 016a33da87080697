// libfiber's distributed scheduler: one scheduler per OS thread, each with a
// FIFO of queue nodes, work stealing between them, and the manager-side
// migration path that pushes the running fiber onto another scheduler and
// switches to the next ready fiber.
//
// The scheduler table is an array of scheduler records, as the C code keeps
// a calloc'd array of structs. The fibers the scheduler reads and writes are
// a table from fiber handle to the fields it touches. The queue is a
// sequence: push appends, trypop takes the head or finds the queue empty.
module FiberSchedulerDist {
  import opened Wrappers
  import opened SchedulerSpec

  /** The fiber manager of one OS thread, as far as the scheduler uses it. */
  class Manager {
    var scheduler: nat                    // index of manager->scheduler
    var currentFiber: FiberId
    var maintenanceFiber: Option<FiberId>

    constructor (scheduler: nat, currentFiber: FiberId)
      ensures this.scheduler == scheduler && this.currentFiber == currentFiber
      ensures maintenanceFiber == None
    {
      this.scheduler := scheduler;
      this.currentFiber := currentFiber;
      maintenanceFiber := None;
    }
  }

  /** The process-wide scheduler table and the fiber fields it touches. */
  class Runtime {
    var schedulers: array<Sched>
    var fibers: map<FiberId, Fiber>
    var nextFiber: nat   // fiber handles at or above this are unallocated
    var nextNode: nat    // queue nodes at or above this are unallocated

    ghost predicate Valid()
      reads this, schedulers
    {
      schedulers.Length > 0 && ValidState(schedulers[..], fibers, nextFiber, nextNode)
    }

    /** fiber_scheduler_init: one scheduler per thread, scheduler i with
        identifier i, an empty queue and zero counters. */
    constructor (numThreads: nat)
      requires numThreads > 0
      ensures Valid() && fresh(schedulers)
      ensures schedulers.Length == numThreads
      ensures forall i :: 0 <= i < numThreads ==>
                schedulers[i].id == i && schedulers[i].queue == []
                && schedulers[i].stealCount == 0 && schedulers[i].failedStealCount == 0
      ensures fibers == map[]
    {
      var a := new Sched[numThreads];
      for i := 0 to numThreads
        invariant forall k :: 0 <= k < i ==> a[k] == DistInit(k)
      {
        a[i] := DistInit(i);
      }
      schedulers := a;
      fibers := map[];
      nextFiber, nextNode := 0, 0;
      InitValid(a[..]);
    }

    /** fiber_scheduler_for_thread: the scheduler of the given thread. */
    function ForThread(threadId: nat): (s: Sched)
      reads this, schedulers
      requires Valid() && threadId < schedulers.Length
      ensures s.id == threadId
    {
      assert Numbered(schedulers[..], threadId);
      schedulers[threadId]
    }

    /** fiber_scheduler_schedule: detach the fiber's node, store the fiber in
        it and push it on scheduler i's queue. */
    method Schedule(i: nat, f: FiberId)
      requires Valid() && i < schedulers.Length
      requires f in fibers && fibers[f].node.Some?
      modifies this`fibers, schedulers
      ensures Valid()
      ensures fibers == old(fibers)[f := old(fibers)[f].(node := None)]
      ensures schedulers[i] == old(schedulers[i]).(queue := old(schedulers[i].queue) + [Node(old(fibers)[f].node.value, f)])
      ensures forall j :: 0 <= j < schedulers.Length && j != i ==> schedulers[j] == old(schedulers[j])
    {
      ScheduleKeepsValid(schedulers[..], fibers, nextFiber, nextNode, i, f);
      var node := fibers[f].node.value;
      fibers := fibers[f := fibers[f].(node := None)];
      schedulers[i] := schedulers[i].(queue := schedulers[i].queue + [Node(node, f)]);
      assert schedulers[..] == old(schedulers[..])[i := schedulers[i]];
    }

    /** dist_fifo_trypop on scheduler i's queue: takes the head node, or
        reports the queue empty. Nothing else changes. */
    method TryPop(i: nat) returns (node: Option<Node>)
      requires i < schedulers.Length
      modifies schedulers
      ensures node == None <==> old(schedulers[i].queue) == []
      ensures node == None ==> schedulers[i] == old(schedulers[i])
      ensures node.Some? ==>
                && node.value == old(schedulers[i].queue[0])
                && schedulers[i] == old(schedulers[i]).(queue := old(schedulers[i].queue[1..]))
      ensures forall j :: 0 <= j < schedulers.Length && j != i ==> schedulers[j] == old(schedulers[j])
    {
      var queue := schedulers[i].queue;
      if queue == [] {
        return None;
      }
      schedulers[i] := schedulers[i].(queue := queue[1..]);
      node := Some(queue[0]);
    }

    /** dist_fifo_push on scheduler i's queue: appends the node at the tail.
        Nothing else changes. */
    method Push(i: nat, node: Node)
      requires i < schedulers.Length
      modifies schedulers
      ensures schedulers[i] == old(schedulers[i]).(queue := old(schedulers[i].queue) + [node])
      ensures forall j :: 0 <= j < schedulers.Length && j != i ==> schedulers[j] == old(schedulers[j])
    {
      schedulers[i] := schedulers[i].(queue := schedulers[i].queue + [node]);
    }

    /** The loop of fiber_scheduler_next: pop nodes from scheduler i's queue
        until one whose fiber is not SAVING; SAVING nodes go back on the tail.
        Returns that node, or None when the queue is empty. */
    method PopRunnable(i: nat) returns (node: Option<Node>)
      requires i < schedulers.Length
      requires forall n :: n in schedulers[i].queue ==> n.data in fibers
      requires NextTerminates(schedulers[i].queue, fibers)
      modifies schedulers
      ensures forall j :: 0 <= j < schedulers.Length && j != i ==> schedulers[j] == old(schedulers[j])
      ensures node == None <==> old(schedulers[i].queue) == []
      ensures node == None ==> schedulers[i] == old(schedulers[i])
      ensures node.Some? ==>
                var q := old(schedulers[i].queue);
                var k := FirstRunnable(q, fibers);
                && node.value == q[k]
                && schedulers[i] == old(schedulers[i]).(queue := q[k + 1..] + q[..k])
    {
      ghost var si := schedulers[i];
      ghost var q := si.queue;
      ghost var k: nat := if q == [] then 0 else FirstRunnable(q, fibers);
      ghost var t: nat := 0;
      while true
        invariant t <= k && (q != [] ==> k < |q|) && (q == [] ==> t == 0)
        invariant schedulers[i] == si.(queue := Requeued(q, t))
        invariant forall j :: 0 <= j < schedulers.Length && j != i ==> schedulers[j] == old(schedulers[j])
        decreases k - t
      {
        node := TryPop(i);
        if node.None? {
          return;
        }
        var n := node.value;
        RequeuedHead(q, t);
        assert n in q;
        if fibers[n.data].state == SavingStateToWait {
          assert IsSaving(fibers, q[t].data) && t != k;
          Push(i, n);
          t := t + 1;
        } else {
          assert !IsSaving(fibers, q[t].data);
          assert t == k;
          return;
        }
      }
    }

    /** fiber_scheduler_next: the next fiber of scheduler i that is not
        SAVING, which gets its queue node back; None when the queue is
        empty. */
    method Next(i: nat) returns (r: Option<FiberId>)
      requires Valid() && i < schedulers.Length
      requires NextTerminates(schedulers[i].queue, fibers)
      modifies this`fibers, schedulers
      ensures Valid()
      ensures forall j :: 0 <= j < schedulers.Length && j != i ==> schedulers[j] == old(schedulers[j])
      ensures schedulers[i].id == old(schedulers[i].id)
      ensures schedulers[i].stealCount == old(schedulers[i].stealCount)
      ensures schedulers[i].failedStealCount == old(schedulers[i].failedStealCount)
      ensures r == None <==> old(schedulers[i].queue) == []
      ensures r == None ==> schedulers[i] == old(schedulers[i]) && fibers == old(fibers)
      ensures r.Some? ==>
                var q := old(schedulers[i].queue);
                var k := FirstRunnable(q, old(fibers));
                && r.value == q[k].data
                && schedulers[i].queue == q[k + 1..] + q[..k]
                && q[k].data in old(fibers)
                && fibers == old(fibers)[q[k].data := old(fibers)[q[k].data].(node := Some(q[k].id))]
      ensures r.Some? ==> r.value in fibers && !IsSaving(fibers, r.value) && fibers[r.value].node.Some?
      ensures r.Some? ==> multiset(schedulers[i].queue)
                          == multiset(old(schedulers[i].queue)) - multiset{Node(fibers[r.value].node.value, r.value)}
    {
      ghost var s0, f0, nf, nn := schedulers[..], fibers, nextFiber, nextNode;
      assert ValidState(s0, f0, nf, nn);
      QueuedFibersKnown(s0, f0, nf, nn, i);
      ghost var si := schedulers[i];
      ghost var q := si.queue;
      var node := PopRunnable(i);
      if node.None? {
        assert schedulers[..] == s0;
        return None;
      }
      var n := node.value;
      ghost var k := FirstRunnable(q, f0);
      assert n == q[k] && schedulers[i] == si.(queue := q[k + 1..] + q[..k]);
      RotateRemoves(q, k);
      DispatchKeepsValid(s0, f0, nf, nn, i, schedulers[i], n);
      assert schedulers[..] == s0[i := schedulers[i]];
      fibers := fibers[n.data := fibers[n.data].(node := Some(n.id))];
      r := Some(n.data);
    }

    /** The inner loop of fiber_scheduler_load_balance: pop from the head of
        scheduler index's queue and push on the tail of scheduler me's queue
        while budget remains, counting each move as a steal and an empty pop
        as a failed steal. Returns the budget left. */
    method StealFrom(me: nat, index: nat, budget: nat) returns (left: nat)
      requires me < schedulers.Length && index < schedulers.Length && me != index
      modifies schedulers
      ensures (schedulers[..], left) == StealPeer(old(schedulers[..]), me, index, budget)
    {
      ghost var s0 := schedulers[..];
      ghost var peer := s0[index].queue;
      left := budget;
      while left > 0
        invariant left <= budget && budget - left <= |peer|
        invariant schedulers[index] == s0[index].(queue := peer[budget - left..])
        invariant schedulers[me] == s0[me].(queue := s0[me].queue + peer[..budget - left],
                                            stealCount := s0[me].stealCount + (budget - left))
        invariant forall x :: 0 <= x < schedulers.Length && x != me && x != index ==> schedulers[x] == s0[x]
      {
        var stolen := TryPop(index);
        if stolen.None? {
          schedulers[me] := schedulers[me].(failedStealCount := schedulers[me].failedStealCount + 1);
          break;
        }
        Push(me, stolen.value);
        assert peer[budget - left..][1..] == peer[budget - (left - 1)..];
        assert peer[..budget - left] + [stolen.value] == peer[..budget - (left - 1)];
        left := left - 1;
        schedulers[me] := schedulers[me].(stealCount := schedulers[me].stealCount + 1);
      }
      StealPeerEffect(s0, me, index, budget);
      assert schedulers[..] == StealPeer(s0, me, index, budget).0;
    }

    /** fiber_scheduler_load_balance: visit every other scheduler once, in
        round-robin order from me + 1, moving nodes from the head of its queue
        to the tail of the local one; 16 moves at most for the whole call. */
    method LoadBalance(me: nat)
      requires Valid() && me < schedulers.Length
      modifies schedulers
      ensures Valid()
      ensures schedulers[..] == Balance(old(schedulers[..]), me, 1, MaxSteal)
    {
      ghost var s0 := schedulers[..];
      BalanceKeepsValid(s0, fibers, nextFiber, nextNode, me);
      assert Numbered(s0, me);
      var n := schedulers.Length;
      var maxSteal: nat := MaxSteal;
      var i := schedulers[me].id + 1;
      var end := i + n - 1;
      while i < end
        invariant me + 1 <= i <= end == me + n
        invariant Balance(schedulers[..], me, i - me, maxSteal) == Balance(s0, me, 1, MaxSteal)
      {
        var index := i % n;
        assert index == Peer(me, i - me, n);
        maxSteal := StealFrom(me, index, maxSteal);
        i := i + 1;
      }
    }

    /** fiber_scheduler_stats: add this scheduler's counters to the caller's
        running totals. */
    method Stats(i: nat, stealCount: nat, failedStealCount: nat) returns (steals: nat, failedSteals: nat)
      requires i < schedulers.Length
      ensures steals == stealCount + schedulers[i].stealCount
      ensures failedSteals == failedStealCount + schedulers[i].failedStealCount
    {
      steals := stealCount + schedulers[i].stealCount;
      failedSteals := failedStealCount + schedulers[i].failedStealCount;
    }

    /** fiber_manager_switch_to: make newFiber the manager's current fiber and
        mark it RUNNING. The register swap itself is outside this model. */
    method SwitchTo(m: Manager, oldFiber: FiberId, newFiber: FiberId)
      requires Valid() && newFiber in fibers
      modifies m`currentFiber, this`fibers
      ensures Valid()
      ensures m.currentFiber == newFiber
      ensures fibers == old(fibers)[newFiber := old(fibers)[newFiber].(state := Running)]
    {
      m.currentFiber := newFiber;
      SetStateKeepsValid(schedulers[..], fibers, nextFiber, nextNode, newFiber, Running);
      fibers := fibers[newFiber := fibers[newFiber].(state := Running)];
    }

    /** Stand-in for fiber_create_no_sched: a fresh READY fiber holding a fresh
        queue node, not placed on any queue. */
    method CreateFiberNoSched(cpuset: nat) returns (f: FiberId)
      requires Valid()
      modifies this`fibers, this`nextFiber, this`nextNode
      ensures Valid()
      ensures f == old(nextFiber) && f !in old(fibers)
      ensures fibers == old(fibers)[f := Fiber(Ready, Some(old(nextNode)), cpuset)]
      ensures nextFiber == old(nextFiber) + 1 && nextNode == old(nextNode) + 1
    {
      f := nextFiber;
      NewFiberKeepsValid(schedulers[..], fibers, nextFiber, nextNode, Ready, cpuset);
      fibers := fibers[f := Fiber(Ready, Some(nextNode), cpuset)];
      nextFiber := nextFiber + 1;
      nextNode := nextNode + 1;
    }

    /** The first half of fiber_scheduler_change: a RUNNING fiber becomes
        READY, then its queue node leaves it and is pushed on the scheduler
        its cpuset names. */
    method Migrate(cur: FiberId)
      requires Valid() && cur in fibers && fibers[cur].node.Some?
      requires fibers[cur].cpuset < schedulers.Length
      modifies this`fibers, schedulers
      ensures Valid()
      ensures var was := old(fibers[cur]);
              fibers == old(fibers)[cur := was.(state := Demoted(was.state), node := None)]
      ensures forall x :: IsSaving(fibers, x) == IsSaving(old(fibers), x)
      ensures var was := old(fibers[cur]);
              schedulers[was.cpuset]
                == old(schedulers[was.cpuset]).(queue := old(schedulers[was.cpuset].queue) + [Node(was.node.value, cur)])
      ensures forall j :: 0 <= j < schedulers.Length && j != old(fibers[cur].cpuset) ==> schedulers[j] == old(schedulers[j])
    {
      var remote := fibers[cur].cpuset;
      ghost var was := fibers[cur];
      ghost var demoted := fibers[cur := was.(state := Demoted(was.state))];
      SetStateKeepsValid(schedulers[..], fibers, nextFiber, nextNode, cur, Demoted(was.state));
      if fibers[cur].state == Running {
        fibers := fibers[cur := fibers[cur].(state := Ready)];
      }
      assert fibers == demoted;
      Schedule(remote, cur);
    }

    /** The dispatch loop of fiber_scheduler_change, which runs once: switch
        to the next fiber of the manager's scheduler, or, when its queue is
        empty, to the maintenance fiber, created on first need. Every other
        fiber and every other queued node stays as it was. */
    method Resume(m: Manager)
      requires Valid() && m.scheduler < schedulers.Length
      requires m.maintenanceFiber.Some? ==> m.maintenanceFiber.value in fibers
      requires NextTerminates(schedulers[m.scheduler].queue, fibers)
      modifies this`fibers, this`nextFiber, this`nextNode, schedulers, m`currentFiber, m`maintenanceFiber
      ensures Valid()
      ensures m.scheduler == old(m.scheduler)
      ensures m.currentFiber in fibers && fibers[m.currentFiber].state == Running
      ensures m.maintenanceFiber.Some? ==> m.maintenanceFiber.value in fibers
      ensures old(schedulers[m.scheduler].queue) != [] ==>
                && m.maintenanceFiber == old(m.maintenanceFiber)
                && var q := old(schedulers[m.scheduler].queue);
                   m.currentFiber == q[FirstRunnable(q, old(fibers))].data
      ensures old(schedulers[m.scheduler].queue) == [] ==>
                && m.maintenanceFiber.Some? && m.currentFiber == m.maintenanceFiber.value
                && (old(m.maintenanceFiber).Some? ==> m.maintenanceFiber == old(m.maintenanceFiber))
                && (old(m.maintenanceFiber).None? ==> m.maintenanceFiber.value !in old(fibers))
      // only the incoming fiber and, when one was dispatched, its node change
      ensures fibers == old(fibers)[m.currentFiber := fibers[m.currentFiber]]
      ensures forall x :: 0 <= x < schedulers.Length && x != m.scheduler ==> schedulers[x] == old(schedulers[x])
      ensures old(schedulers[m.scheduler].queue) == [] ==> schedulers[m.scheduler] == old(schedulers[m.scheduler])
      ensures schedulers[m.scheduler] == old(schedulers[m.scheduler]).(queue := schedulers[m.scheduler].queue)
      // the incoming fiber's record
      ensures old(schedulers[m.scheduler].queue) != [] ==>
                var q := old(schedulers[m.scheduler].queue);
                var n := q[FirstRunnable(q, old(fibers))];
                && m.currentFiber in old(fibers)
                && fibers[m.currentFiber] == old(fibers)[m.currentFiber].(state := Running, node := Some(n.id))
                && nextFiber == old(nextFiber) && nextNode == old(nextNode)
      ensures old(schedulers[m.scheduler].queue) != [] ==>
                var q := old(schedulers[m.scheduler].queue);
                var k := FirstRunnable(q, old(fibers));
                schedulers[m.scheduler].queue == q[k + 1..] + q[..k]
      ensures old(schedulers[m.scheduler].queue) == [] && old(m.maintenanceFiber).Some? ==>
                && m.currentFiber in old(fibers)
                && fibers[m.currentFiber] == old(fibers)[m.currentFiber].(state := Running)
                && nextFiber == old(nextFiber) && nextNode == old(nextNode)
      ensures old(schedulers[m.scheduler].queue) == [] && old(m.maintenanceFiber).None? ==>
                && m.currentFiber == old(nextFiber)
                && fibers[m.currentFiber] == Fiber(Running, Some(old(nextNode)), m.scheduler)
                && nextFiber == old(nextFiber) + 1 && nextNode == old(nextNode) + 1
      ensures old(schedulers[m.scheduler].queue) != [] ==>
                && fibers[m.currentFiber].node.Some?
                && multiset(schedulers[m.scheduler].queue)
                   == multiset(old(schedulers[m.scheduler].queue)) - multiset{Node(fibers[m.currentFiber].node.value, m.currentFiber)}
    {
      var dispatched := DispatchLocal(m);
      if !dispatched {
        SwitchToMaintenance(m);
      }
    }

    /** The non-empty-queue branch of fiber_scheduler_change: take the next
        fiber from the manager's scheduler and switch to it. Reports whether
        the queue had one. */
    method DispatchLocal(m: Manager) returns (dispatched: bool)
      requires Valid() && m.scheduler < schedulers.Length
      requires NextTerminates(schedulers[m.scheduler].queue, fibers)
      modifies this`fibers, schedulers, m`currentFiber
      ensures Valid()
      ensures dispatched <==> old(schedulers[m.scheduler].queue) != []
      ensures !dispatched ==>
                && fibers == old(fibers) && m.currentFiber == old(m.currentFiber)
                && schedulers[m.scheduler] == old(schedulers[m.scheduler])
      ensures dispatched ==>
                && (var q := old(schedulers[m.scheduler].queue);
                    m.currentFiber == q[FirstRunnable(q, old(fibers))].data)
                && m.currentFiber in fibers && fibers[m.currentFiber].state == Running
                && fibers == old(fibers)[m.currentFiber := fibers[m.currentFiber]]
                && fibers[m.currentFiber].node.Some?
                && multiset(schedulers[m.scheduler].queue)
                   == multiset(old(schedulers[m.scheduler].queue)) - multiset{Node(fibers[m.currentFiber].node.value, m.currentFiber)}
      ensures dispatched ==>
                var q := old(schedulers[m.scheduler].queue);
                var n := q[FirstRunnable(q, old(fibers))];
                && m.currentFiber in old(fibers)
                && fibers[m.currentFiber] == old(fibers)[m.currentFiber].(state := Running, node := Some(n.id))
      // the SAVING nodes popped before the dispatched one are back on the tail
      ensures dispatched ==>
                var q := old(schedulers[m.scheduler].queue);
                var k := FirstRunnable(q, old(fibers));
                schedulers[m.scheduler].queue == q[k + 1..] + q[..k]
      ensures schedulers[m.scheduler] == old(schedulers[m.scheduler]).(queue := schedulers[m.scheduler].queue)
      ensures forall x :: 0 <= x < schedulers.Length && x != m.scheduler ==> schedulers[x] == old(schedulers[x])
    {
      ghost var f0 := fibers;
      var newFiber := Next(m.scheduler);
      dispatched := newFiber.Some?;
      if dispatched {
        ghost var f1 := fibers;
        SwitchTo(m, m.currentFiber, newFiber.value);
        UpdateTwice(f0, newFiber.value, f1[newFiber.value], fibers[newFiber.value]);
      }
    }

    /** The empty-queue branch of fiber_scheduler_change: create the
        maintenance fiber on first need, then switch to it. */
    method SwitchToMaintenance(m: Manager)
      requires Valid()
      requires m.maintenanceFiber.Some? ==> m.maintenanceFiber.value in fibers
      modifies this`fibers, this`nextFiber, this`nextNode, m`currentFiber, m`maintenanceFiber
      ensures Valid()
      ensures m.maintenanceFiber.Some? && m.currentFiber == m.maintenanceFiber.value
      ensures m.currentFiber in fibers && fibers[m.currentFiber].state == Running
      ensures old(m.maintenanceFiber).Some? ==> m.maintenanceFiber == old(m.maintenanceFiber)
      ensures old(m.maintenanceFiber).None? ==> m.maintenanceFiber.value !in old(fibers)
      ensures fibers == old(fibers)[m.currentFiber := fibers[m.currentFiber]]
      // an existing maintenance fiber changes only its state
      ensures old(m.maintenanceFiber).Some? ==>
                && m.currentFiber in old(fibers)
                && fibers[m.currentFiber] == old(fibers)[m.currentFiber].(state := Running)
                && nextFiber == old(nextFiber) && nextNode == old(nextNode)
      // a new one takes the next handle and the next node
      ensures old(m.maintenanceFiber).None? ==>
                && m.currentFiber == old(nextFiber)
                && fibers[m.currentFiber] == Fiber(Running, Some(old(nextNode)), m.scheduler)
                && nextFiber == old(nextFiber) + 1 && nextNode == old(nextNode) + 1
    {
      if m.maintenanceFiber.None? {
        var f := CreateFiberNoSched(m.scheduler);
        m.maintenanceFiber := Some(f);
        // fiber_detach: nobody will join it; nothing the scheduler tracks
      }
      SwitchTo(m, m.currentFiber, m.maintenanceFiber.value);
      // the C code then re-reads the thread's manager, which is outside this model
    }

    /** The local queue as next sees it once the current fiber's node has been
        pushed on the scheduler its cpuset names. */
    ghost function LocalAfterPush(m: Manager): seq<Node>
      reads this, schedulers, m
      requires m.scheduler < schedulers.Length
      requires m.currentFiber in fibers && fibers[m.currentFiber].node.Some?
    {
      var cur := m.currentFiber;
      var q := schedulers[m.scheduler].queue;
      if fibers[cur].cpuset == m.scheduler then q + [Node(fibers[cur].node.value, cur)] else q
    }

    /** fiber_scheduler_change: migrate the running fiber to the scheduler its
        cpuset names, then switch to the next local fiber, or to the
        maintenance fiber (created on first need) when there is none. */
    method Change(m: Manager)
      requires Valid() && m.scheduler < schedulers.Length
      requires m.currentFiber in fibers && fibers[m.currentFiber].node.Some?
      requires fibers[m.currentFiber].cpuset < schedulers.Length
      requires m.maintenanceFiber.Some? ==> m.maintenanceFiber.value in fibers
      requires NextTerminates(LocalAfterPush(m), fibers)
      modifies this`fibers, this`nextFiber, this`nextNode, schedulers, m`currentFiber, m`maintenanceFiber
      ensures Valid()
      ensures m.scheduler == old(m.scheduler)
      ensures m.currentFiber in fibers && fibers[m.currentFiber].state == Running
      ensures m.maintenanceFiber.Some? ==> m.maintenanceFiber.value in fibers
      // the dispatch decision
      ensures old(LocalAfterPush(m)) != [] ==>
                && m.maintenanceFiber == old(m.maintenanceFiber)
                && var q := old(LocalAfterPush(m));
                   m.currentFiber == q[FirstRunnable(q, old(fibers))].data
      ensures old(LocalAfterPush(m)) == [] ==>
                && m.maintenanceFiber.Some? && m.currentFiber == m.maintenanceFiber.value
                && (old(m.maintenanceFiber).Some? ==> m.maintenanceFiber == old(m.maintenanceFiber))
                && (old(m.maintenanceFiber).None? ==> m.maintenanceFiber.value !in old(fibers))
      // the outgoing fiber, unless it was dispatched again
      ensures var cur := old(m.currentFiber);
              var was := old(fibers[m.currentFiber]);
              m.currentFiber != cur ==>
                && was.cpuset < schedulers.Length
                && cur in fibers && fibers[cur] == was.(state := Demoted(was.state), node := None)
                && Node(was.node.value, cur) in schedulers[was.cpuset].queue
      // only the outgoing and the incoming fiber change
      ensures var cur := old(m.currentFiber);
              && cur in fibers
              && fibers == old(fibers)[cur := fibers[cur]][m.currentFiber := fibers[m.currentFiber]]
      // only the local queue and the one the cpuset names change
      ensures forall x :: 0 <= x < schedulers.Length && x != m.scheduler && x != old(fibers[m.currentFiber].cpuset) ==>
                schedulers[x] == old(schedulers[x])
      ensures var cur := old(m.currentFiber);
              var was := old(fibers[m.currentFiber]);
              was.cpuset != m.scheduler ==>
                schedulers[was.cpuset]
                  == old(schedulers[was.cpuset]).(queue := old(schedulers[was.cpuset].queue) + [Node(was.node.value, cur)])
      ensures schedulers[m.scheduler] == old(schedulers[m.scheduler]).(queue := schedulers[m.scheduler].queue)
      ensures old(LocalAfterPush(m)) == [] ==> schedulers[m.scheduler] == old(schedulers[m.scheduler])
      ensures old(LocalAfterPush(m)) != [] ==>
                && fibers[m.currentFiber].node.Some?
                && multiset(schedulers[m.scheduler].queue)
                   == multiset(old(LocalAfterPush(m))) - multiset{Node(fibers[m.currentFiber].node.value, m.currentFiber)}
      // the incoming fiber's record: an existing fiber changes only its state
      // and node, and keeps its cpuset
      ensures m.currentFiber in old(fibers) ==>
                fibers[m.currentFiber] == old(fibers)[m.currentFiber].(state := Running, node := fibers[m.currentFiber].node)
      ensures old(LocalAfterPush(m)) != [] ==>
                var q := old(LocalAfterPush(m));
                var k := FirstRunnable(q, old(fibers));
                && fibers[m.currentFiber].node == Some(q[k].id)
                && schedulers[m.scheduler].queue == q[k + 1..] + q[..k]
                && nextFiber == old(nextFiber) && nextNode == old(nextNode)
      // switched back to itself as the maintenance fiber: its node stays queued
      ensures old(LocalAfterPush(m)) == [] && m.currentFiber == old(m.currentFiber) ==>
                fibers[m.currentFiber] == old(fibers[m.currentFiber]).(state := Running, node := None)
      ensures old(LocalAfterPush(m)) == [] && old(m.maintenanceFiber).Some? ==>
                && m.currentFiber in old(fibers)
                && (m.currentFiber != old(m.currentFiber) ==>
                      fibers[m.currentFiber] == old(fibers)[m.currentFiber].(state := Running))
                && nextFiber == old(nextFiber) && nextNode == old(nextNode)
      ensures old(LocalAfterPush(m)) == [] && old(m.maintenanceFiber).None? ==>
                && m.currentFiber == old(nextFiber)
                && fibers[m.currentFiber] == Fiber(Running, Some(old(nextNode)), m.scheduler)
                && nextFiber == old(nextFiber) + 1 && nextNode == old(nextNode) + 1
    {
      var cur := m.currentFiber;
      ghost var local := LocalAfterPush(m);
      ghost var f0 := fibers;
      Migrate(cur);
      ghost var f1 := fibers;
      assert schedulers[m.scheduler].queue == local;
      NextTerminatesSameSaving(local, f0, fibers);
      ghost var k: nat := 0;
      if local != [] {
        FirstRunnableSameSaving(local, f0, fibers);
        k := FirstRunnable(local, f0);
      }
      ghost var pushed := Node(f0[cur].node.value, cur);
      assert f0[cur].cpuset == m.scheduler ==> pushed in local;
      Resume(m);
      UpdateInTurn(f0, cur, f1[cur], m.currentFiber, fibers[m.currentFiber]);
      assert local != [] ==> schedulers[m.scheduler].queue == local[k + 1..] + local[..k];
      if m.currentFiber != cur && f0[cur].cpuset == m.scheduler {
        OthersStayQueued(local, schedulers[m.scheduler].queue,
                         Node(fibers[m.currentFiber].node.value, m.currentFiber));
      }
    }
  }
}
