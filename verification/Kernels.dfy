/**
 The thread operations of priority-scheduler/threads/thread.c and devices/timer.c as they change the
 scheduler's globals, proved against the state changes of module Scheduler.
 */
module Kernels {
  import opened Machine
  import opened Donation
  import opened Scheduler

  class Kernel {
    var readyList: seq<Tid>
    var allList: seq<Tid>
    var idleThread: Option<Tid>
    var status: map<Tid, Status>
    var graph: Graph
    var priority: map<Tid, int>
    var asleepList: seq<Tid>
    var wakeupTicks: map<Tid, int>
    var ticks: int
    var threadTicks: nat
    var current: Tid
    const initialThread: Tid
    const mlfqs: bool

    function State(): Sched
      reads this
    {
      Sched(readyList, allList, idleThread, status, graph, mlfqs, priority, asleepList, wakeupTicks, ticks)
    }

    ghost predicate Valid()
      reads this
    {
      Scheduler.Valid(State(), current)
    }

    /** Some thread can be scheduled: without the idle thread, an empty ready list would stop the kernel. */
    ghost predicate CanSchedule()
      reads this
    {
      readyList != [] || idleThread.Some?
    }

    /** thread_init: the code that is running becomes the initial thread. */
    constructor (initial: Tid, mlfqs: bool, mlfqsPriority: int)
      ensures Valid() && current == initial == initialThread && this.mlfqs == mlfqs
      ensures readyList == [] && allList == [initial] && idleThread == None && asleepList == [] && ticks == 0
    {
      readyList, allList, idleThread := [], [initial], None;
      status := map[initial := Running];
      graph := Graph(map[initial := PRI_DEFAULT], map[initial := []], map[]);
      priority := map[initial := mlfqsPriority];
      asleepList, wakeupTicks, ticks, threadTicks := [], map[], 0, 0;
      current, initialThread, this.mlfqs := initial, initial, mlfqs;
      new;
      assert HasStatus(State(), initial, Running);
      assert NoDeadlock(graph) by {
        assert Isolated(graph, initial);
        IsolatedDonors(graph, initial);
      }
    }

    /** next_thread_to_run; taking the maximum off the list is list_pop_max. */
    method NextThreadToRun() returns (t: Tid)
      requires Coherent(State()) && CanSchedule()
      modifies `readyList
      ensures Picked(old(State()), t, State())
    {
      if readyList == [] {
        return idleThread.value;
      }
      var best := MostUrgent(State());
      t := readyList[best];
      ghost var s := State();
      readyList := RemoveAt(readyList, best);
      assert State() == s.(ready := RemoveAt(s.ready, best));
    }

    /**
     schedule, once the current thread has left the RUNNING state. The thread chosen has the highest
     effective priority of the ready list; the idle thread runs only when that list was empty.
     */
    method Schedule()
      requires Coherent(State()) && NoneRunning(State()) && CanSchedule()
      modifies this
      ensures Valid() && threadTicks == 0
      ensures Scheduled(old(State()), old(current), State(), current, initialThread)
    {
      ghost var s := State();
      var prev := current;
      var next := NextThreadToRun();
      ghost var m := State();
      TailKeeps(s, next, m, prev, initialThread, Tail(m, prev, next, initialThread));
      ThreadScheduleTail(prev, next);
    }

    /** switch_threads and thread_schedule_tail. */
    method ThreadScheduleTail(prev: Tid, next: Tid)
      modifies this
      ensures State() == Tail(old(State()), prev, next, initialThread) && current == next && threadTicks == 0
    {
      current := next;
      status := status[next := Running];
      threadTicks := 0;
      if prev != next && prev in status && status[prev] == Dying && prev != initialThread {
        status := status - {prev};
        graph := Without(graph, prev);
      }
    }

    method ThreadUnblock(t: Tid)
      requires Valid() && HasStatus(State(), t, Blocked)
      requires idleThread != Some(t) && t !in asleepList && !Waiting(graph, t)
      modifies this
      ensures Valid() && State() == Unblocked(old(State()), t) && current == old(current)
    {
      ghost var s := Unblocked(State(), t);
      UnblockKeeps(State(), t, current, s);
      readyList := readyList + [t];
      status := status[t := Ready];
      assert State() == s;
    }

    method ThreadYield()
      requires Valid()
      modifies this
      ensures Valid()
      ensures Scheduled(Yielding(old(State()), old(current)), old(current), State(), current, initialThread)
      ensures graph == old(graph) && allList == old(allList) && priority == old(priority)
      ensures current != old(current) ==> HasStatus(State(), old(current), Ready)
      ensures forall t :: t in status <==> t in old(status)
    {
      ghost var s := Yielding(State(), current);
      YieldingKeeps(State(), current, s);
      if idleThread != Some(current) {
        readyList := readyList + [current];
      }
      status := status[current := Ready];
      assert State() == s;
      Schedule();
      ScheduledForgets(s, old(current), State(), current, initialThread);
    }

    /** thread_block; g is the wait-for graph now that the caller has put the thread on a waiters list, if it has. */
    method ThreadBlock(g: Graph)
      requires Valid() && CanSchedule() && MayWait(State(), current, g)
      modifies this
      ensures Valid()
      ensures Scheduled(Blocking(old(State()), old(current), g), old(current), State(), current, initialThread)
      ensures idleThread != Some(old(current)) ==> current != old(current) && HasStatus(State(), old(current), Blocked)
      ensures graph == g
    {
      ghost var s := Blocking(State(), current, g);
      BlockingKeeps(State(), current, g, s);
      graph := g;
      status := status[current := Blocked];
      assert State() == s;
      assert HasStatus(s, old(current), Blocked);
      Schedule();
      ScheduledForgets(s, old(current), State(), current, initialThread);
      if idleThread != Some(old(current)) {
        BlockedIsNotPicked(s, old(current), State(), current, initialThread);
      }
    }

    /** thread_exit; its ASSERT is that the thread holds no lock. */
    method ThreadExit()
      requires Valid() && CanSchedule() && idleThread != Some(current)
      requires current in graph.held && graph.held[current] == []
      modifies this
      ensures Valid()
      ensures current != old(current) && old(current) !in allList
      ensures old(current) in status <==> old(current) == initialThread
      ensures exists k :: 0 <= k < |old(allList)| && old(allList)[k] == old(current)
                && Scheduled(Exiting(old(State()), old(current), k), old(current), State(), current, initialThread)
    {
      hide ReadyOk, AsleepOk, Picked, Tail;
      assert HasStatus(State(), current, Running);
      var k :| 0 <= k < |allList| && allList[k] == current;
      ghost var s, was := Exiting(State(), current, k), current;
      ExitingKeeps(State(), current, k, s);
      allList := RemoveAt(allList, k);
      status := status[current := Dying];
      assert State() == s;
      assert HasStatus(s, was, Dying);
      RemovedAt(old(allList), k);
      Schedule();
      DyingIsNotPicked(s, was, State(), current, initialThread);
      ScheduledForgets(s, was, State(), current, initialThread);
    }

    /** thread_create, for a page at which no thread lives; the new thread is ready and may run at once. */
    method ThreadCreate(t: Tid, basePriority: int, mlfqsPriority: int)
      requires Valid() && t !in status && PRI_MIN <= basePriority <= PRI_MAX
      modifies this
      ensures Valid()
      ensures Scheduled(Yielding(Unblocked(Created(old(State()), t, basePriority, mlfqsPriority), t), old(current)),
                        old(current), State(), current, initialThread)
      ensures t in status && allList == old(allList) + [t]
      ensures t in graph.base && graph.base[t] == basePriority && t in priority && priority[t] == mlfqsPriority
      ensures Wf(graph) && Effective(graph, t, basePriority)
    {
      InitThread(t, basePriority, mlfqsPriority);
      ThreadUnblock(t);
      assert HasStatus(State(), t, Ready);
      ThreadYield();
    }

    /** init_thread. */
    method InitThread(t: Tid, basePriority: int, mlfqsPriority: int)
      requires Valid() && t !in status && PRI_MIN <= basePriority <= PRI_MAX
      modifies this
      ensures Valid() && State() == Created(old(State()), t, basePriority, mlfqsPriority) && current == old(current)
      ensures HasStatus(State(), t, Blocked) && idleThread != Some(t) && t !in asleepList && !Waiting(graph, t)
      ensures t in graph.base && graph.base[t] == basePriority && priority[t] == mlfqsPriority && allList == old(allList) + [t]
      ensures Wf(graph) && Effective(graph, t, basePriority)
    {
      hide Coherent;
      ghost var s := Created(State(), t, basePriority, mlfqsPriority);
      CreatedKeeps(State(), t, basePriority, mlfqsPriority, current, s);
      allList := allList + [t];
      status := status[t := Blocked];
      graph := Graph(graph.base[t := basePriority], graph.held[t := []], graph.waiters);
      priority := priority[t := mlfqsPriority];
      assert State() == s;
      NewcomerPriority(graph, t);
    }

    /** Locks taken and released by the running thread, as far as they change the wait-for graph. */
    method Relock(g: Graph)
      requires Valid() && MayRelock(State(), g)
      modifies `graph
      ensures Valid() && State() == old(State()).(graph := g)
    {
      ghost var s := State().(graph := g);
      RelockKeeps(State(), current, g);
      graph := g;
      assert State() == s;
    }

    /** idle: the running thread becomes the idle thread. */
    method BecomeIdle()
      requires Valid() && idleThread == None
      modifies `idleThread
      ensures Valid() && State() == old(State()).(idle := Some(current))
    {
      ghost var s := State();
      RunningIsFree(s, current);
      idleThread := Some(current);
      assert HasStatus(s, current, Running);
      assert forall u: Tid, st: Status :: HasStatus(State(), u, st) <==> HasStatus(s, u, st);
    }

    /** timer_sleep, for any number of ticks. */
    method TimerSleep(n: int)
      requires Valid() && CanSchedule() && idleThread != Some(current)
      modifies this
      ensures Valid()
      ensures Scheduled(Sleeping(old(State()), old(current), old(ticks) + n), old(current), State(), current, initialThread)
      ensures ticks == old(ticks) && forall t :: t in asleepList <==> t in old(asleepList) || t == old(current)
      ensures forall t :: t in asleepList ==>
                t in wakeupTicks && wakeupTicks[t] == if t == old(current) then old(ticks) + n else old(wakeupTicks)[t]
    {
      hide Coherent, Sleeping, Picked, Tail;
      SleepsUntil(State(), current, ticks + n);
      ghost var s := Sleeping(State(), current, ticks + n);
      SleepingKeeps(State(), current, ticks + n, s);
      FallAsleep(ticks + n, s);
      Schedule();
      ScheduledKeepsSleepers(s, old(current), State(), current, initialThread);
    }

    /** timer_sleep up to schedule: the list insertion and the state change in thread_block. */
    method FallAsleep(at: int, ghost s: Sched)
      requires Valid() && s == Sleeping(State(), current, at)
      modifies `asleepList, `wakeupTicks, `status
      ensures State() == s
    {
      hide ReadyOk, AllOk, GraphOk;
      var k := InsertionPoint(asleepList, wakeupTicks, at);
      asleepList := asleepList[..k] + [current] + asleepList[k..];
      wakeupTicks := wakeupTicks[current := at];
      status := status[current := Blocked];
    }

    /** One sleeper taken off the list and unblocked. */
    method WakeFirst()
      requires Valid() && asleepList != []
      modifies this
      ensures Valid() && State() == WakeOne(old(State()))
      ensures current == old(current) && threadTicks == old(threadTicks)
    {
      WakeOneKeeps(State(), current);
      var t := asleepList[0];
      asleepList := asleepList[1..];
      readyList := readyList + [t];
      status := status[t := Ready];
    }

    /** The loop of timer_interrupt. */
    method WakeSleepers()
      requires Valid()
      modifies this
      ensures Valid() && State() == DueWoken(old(State()))
      ensures current == old(current) && threadTicks == old(threadTicks)
    {
      ghost var target := DueWoken(State());
      while asleepList != []
        invariant Valid() && current == old(current) && threadTicks == old(threadTicks)
        invariant target == DueWoken(State())
        decreases |asleepList|
      {
        DueWokenStep(State());
        var t := asleepList[0];
        assert t in State().asleep;
        if wakeupTicks[t] > ticks {
          break;
        }
        WakeFirst();
      }
    }

    /** The timer interrupt: ticks advance, due sleepers wake; the result says whether the time slice is over. */
    method TimerInterrupt() returns (yieldOnReturn: bool)
      requires Valid()
      modifies this
      ensures Valid() && State() == Interrupted(old(State())) && current == old(current)
      ensures threadTicks == old(threadTicks) + 1 && yieldOnReturn == (threadTicks >= TIME_SLICE)
    {
      hide Coherent, DueWoken;
      TickKeeps(State(), State().(ticks := ticks + 1), current);
      ticks := ticks + 1;
      threadTicks := threadTicks + 1;
      yieldOnReturn := threadTicks >= TIME_SLICE;
      WakeSleepers();
    }

    /** thread_set_priority. */
    method ThreadSetPriority(newPriority: int)
      requires Valid() && PRI_MIN <= newPriority <= PRI_MAX
      modifies this
      ensures Valid()
      ensures Scheduled(Yielding(old(State()).(graph := old(graph).(base := old(graph).base[old(current) := newPriority])), old(current)),
                        old(current), State(), current, initialThread)
      ensures graph == old(graph).(base := old(graph).base[old(current) := newPriority])
    {
      assert HasStatus(State(), current, Running);
      RebaseKeeps(State(), current, newPriority);
      graph := graph.(base := graph.base[current := newPriority]);
      ThreadYield();
    }
  }

  /** get_priority in either mode. */
  method GetPriorityOf(s: Sched, t: Tid) returns (p: int)
    requires GraphOk(s) && t in s.status
    ensures PriorityIs(s, t, p)
  {
    if s.mlfqs {
      p := s.priority[t];
    } else {
      p := GetPriority(s.graph, t);
    }
  }

  /** The scan of the ready list for a thread of the highest priority. */
  method MostUrgent(s: Sched) returns (best: nat)
    requires GraphOk(s) && ReadyOk(s) && s.ready != []
    ensures best < |s.ready|
    ensures forall k :: 0 <= k < |s.ready| ==> NotAbove(s, s.ready[k], s.ready[best])
  {
    assert forall k :: 0 <= k < |s.ready| ==> s.ready[k] in s.ready && HasStatus(s, s.ready[k], Ready);
    best := 0;
    var p := GetPriorityOf(s, s.ready[0]);
    NotAboveSelf(s, s.ready[0]);
    var i := 1;
    while i < |s.ready|
      invariant best < |s.ready| && 0 < i <= |s.ready|
      invariant PriorityIs(s, s.ready[best], p)
      invariant forall k :: 0 <= k < i ==> NotAbove(s, s.ready[k], s.ready[best])
    {
      var q := GetPriorityOf(s, s.ready[i]);
      PrioritiesCompare(s, s.ready, i, best, p, q);
      if p < q {
        best, p := i, q;
      }
      i := i + 1;
    }
  }

  /** Where list_insert_ordered puts a sleeper. */
  method InsertionPoint(asleep: seq<Tid>, wakeup: map<Tid, int>, at: int) returns (k: nat)
    requires forall t :: t in asleep ==> t in wakeup
    ensures k == InsertAt(asleep, wakeup, at)
  {
    k := 0;
    assert asleep[0..] == asleep;
    while k < |asleep| && wakeup[asleep[k]] <= at
      invariant 0 <= k <= |asleep|
      invariant InsertAt(asleep, wakeup, at) == k + InsertAt(asleep[k..], wakeup, at)
    {
      assert asleep[k..][1..] == asleep[k + 1..];
      k := k + 1;
    }
  }

  /** schedule() in state s leaves state s' with thread next running. */
  ghost predicate Scheduled(s: Sched, prev: Tid, s': Sched, next: Tid, initial: Tid) {
    exists m :: Picked(s, next, m) && s' == Tail(m, prev, next, initial)
  }

  /** schedule() leaves the sleepers and the clock alone. */
  lemma ScheduledKeepsSleepers(s: Sched, prev: Tid, s': Sched, next: Tid, initial: Tid)
    requires Scheduled(s, prev, s', next, initial)
    ensures s'.asleep == s.asleep && s'.wakeup == s.wakeup && s'.ticks == s.ticks
  {
  }

  /** A dying thread, other than the initial one, is freed by the switch away from it; nothing else is forgotten. */
  lemma ScheduledForgets(s: Sched, prev: Tid, s': Sched, next: Tid, initial: Tid)
    requires Coherent(s) && NoneRunning(s) && Scheduled(s, prev, s', next, initial)
    ensures s'.all == s.all && s'.idle == s.idle && s'.mlfqs == s.mlfqs && s'.priority == s.priority
    ensures next != prev || !HasStatus(s, prev, Dying)
    ensures
      if HasStatus(s, prev, Dying) && prev != initial then
        s'.graph == Without(s.graph, prev) && s'.status == s.status[next := Running] - {prev}
      else s'.graph == s.graph && s'.status == s.status[next := Running]
  {
    var m :| Picked(s, next, m) && s' == Tail(m, prev, next, initial);
    PickedIsFree(s, next, m);
  }

  lemma PrioritiesCompare(s: Sched, list: seq<Tid>, i: nat, best: nat, p: int, q: int)
    requires i < |list| && best < |list|
    requires PriorityIs(s, list[best], p) && PriorityIs(s, list[i], q)
    requires forall k :: 0 <= k < i ==> NotAbove(s, list[k], list[best])
    ensures NotAbove(s, list[i], list[if p < q then i else best])
    ensures forall k :: 0 <= k < i ==> NotAbove(s, list[k], list[if p < q then i else best])
  {
    forall x | PriorityIs(s, list[best], x) ensures x == p {
      PriorityIsUnique(s, list[best], x, p);
    }
    forall x | PriorityIs(s, list[i], x) ensures x == q {
      PriorityIsUnique(s, list[i], x, q);
    }
  }

  lemma NotAboveSelf(s: Sched, t: Tid)
    ensures NotAbove(s, t, t)
  {
    forall p, q | PriorityIs(s, t, p) && PriorityIs(s, t, q) ensures p <= q {
      PriorityIsUnique(s, t, p, q);
    }
  }

  lemma PriorityIsUnique(s: Sched, t: Tid, p: int, q: int)
    requires PriorityIs(s, t, p) && PriorityIs(s, t, q)
    ensures p == q
  {
    if !s.mlfqs {
      EffectiveIsUnique(s.graph, t, p, q);
    }
  }

  lemma BlockedIsNotPicked(s: Sched, t: Tid, s': Sched, next: Tid, initial: Tid)
    requires Coherent(s) && NoneRunning(s) && HasStatus(s, t, Blocked) && s.idle != Some(t)
    requires Scheduled(s, t, s', next, initial)
    ensures next != t && HasStatus(s', t, Blocked)
  {
    var m :| Picked(s, next, m) && s' == Tail(m, t, next, initial);
    if s.ready != [] {
      assert HasStatus(s, next, Ready);
    }
  }

  lemma DyingIsNotPicked(s: Sched, t: Tid, s': Sched, next: Tid, initial: Tid)
    requires Coherent(s) && NoneRunning(s) && HasStatus(s, t, Dying) && Scheduled(s, t, s', next, initial)
    ensures next != t
  {
    var m :| Picked(s, next, m) && s' == Tail(m, t, next, initial);
    PickedIsFree(s, next, m);
  }

  /** A new base priority changes no queue and no waiting. */
  lemma RebaseKeeps(s: Sched, t: Tid, p: int)
    requires Scheduler.Valid(s, t) && PRI_MIN <= p <= PRI_MAX && t in s.graph.base
    ensures Scheduler.Valid(s.(graph := s.graph.(base := s.graph.base[t := p])), t)
  {
    var g, h := s.graph, s.graph.(base := s.graph.base[t := p]);
    assert Wf(h);
    forall u, v ensures WaitsFor(h, u, v) <==> WaitsFor(g, u, v) {
      if WaitsFor(g, u, v) {
        var i, j :| WaitsAt(g, u, v, i, j);
        assert WaitsAt(h, u, v, i, j);
      }
      if WaitsFor(h, u, v) {
        var i, j :| WaitsAt(h, u, v, i, j);
        assert WaitsAt(g, u, v, i, j);
      }
    }
    forall u: Tid, v: Tid ensures Donates(h, u, v) <==> Donates(g, u, v) {
      SameDonates(g, h, u, v);
    }
    var r := s.(graph := h);
    assert forall u: Tid, st: Status :: HasStatus(r, u, st) <==> HasStatus(s, u, st);
    assert forall u: Tid :: Waiting(h, u) <==> Waiting(g, u);
  }

  // ---------------------------------------------------------------- what scheduling guarantees

  /** The idle thread is chosen only when no thread is ready. */
  lemma IdleOnlyWhenNothingReady(s: Sched, prev: Tid, s': Sched, next: Tid, initial: Tid)
    requires Coherent(s) && NoneRunning(s) && Scheduled(s, prev, s', next, initial)
    ensures s.idle == Some(next) <==> s.ready == []
  {
    var m :| Picked(s, next, m) && s' == Tail(m, prev, next, initial);
    if s.ready != [] {
      assert next in s.ready;
    }
  }

  /**
   In donation mode the thread chosen has at least the effective priority of every thread that was
   ready, and of every thread whose chain of lock holders ends in one of those.
   */
  lemma ChosenOutranks(s: Sched, prev: Tid, s': Sched, next: Tid, initial: Tid, r: Tid, w: Tid, p: int, q: int)
    requires Coherent(s) && NoneRunning(s) && !s.mlfqs && Scheduled(s, prev, s', next, initial)
    requires r in s.ready && Donates(s.graph, w, r)
    requires Effective(s.graph, w, p) && Effective(s.graph, next, q)
    ensures p <= q
  {
    var m :| Picked(s, next, m) && s' == Tail(m, prev, next, initial);
    assert HasStatus(s, r, Ready);
    var x := EffectiveExists(s.graph, r);
    DonorsAreLower(s.graph, w, r, p, x);
    assert NotAbove(s, r, next);
    assert PriorityIs(s, r, x) && PriorityIs(s, next, q);
  }

  /** In MLFQS mode it has the highest stored priority. */
  lemma ChosenIsHighest(s: Sched, prev: Tid, s': Sched, next: Tid, initial: Tid, r: Tid)
    requires Coherent(s) && NoneRunning(s) && s.mlfqs && Scheduled(s, prev, s', next, initial) && r in s.ready
    ensures next in s.priority && r in s.priority && s.priority[r] <= s.priority[next]
  {
    var m :| Picked(s, next, m) && s' == Tail(m, prev, next, initial);
    assert HasStatus(s, r, Ready) && HasStatus(s, next, Ready);
    assert NotAbove(s, r, next);
    assert PriorityIs(s, r, s.priority[r]) && PriorityIs(s, next, s.priority[next]);
  }

  lemma EffectiveExists(g: Graph, t: Tid) returns (p: int)
    requires Wf(g) && t in g.base
    ensures Effective(g, t, p)
  {
    DonatesSelf(g, t);
    p := g.base[t];
    var left := g.base.Keys;
    while left != {}
      invariant left <= g.base.Keys
      invariant exists u :: u in g.base && Donates(g, u, t) && g.base[u] == p
      invariant forall u :: u in g.base && u !in left && Donates(g, u, t) ==> g.base[u] <= p
      decreases left
    {
      var u :| u in left;
      if Donates(g, u, t) && g.base[u] > p {
        p := g.base[u];
      }
      left := left - {u};
    }
  }
}
