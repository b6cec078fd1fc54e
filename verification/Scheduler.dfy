/**
 The thread states and queues of priority-scheduler/threads/thread.c and the sleep list of
 priority-scheduler/devices/timer.c. Threads are known by number; the fields of their struct thread
 are maps from it. Lock acquisition and release belong to synch.c, which is not part of this model:
 it appears as a change of the wait-for graph.
 */
module Scheduler {
  import opened Machine
  import opened Donation

  const TIME_SLICE := 4

  datatype Status = Running | Ready | Blocked | Dying

  /** The scheduler's globals and the thread fields it uses. */
  datatype Sched = Sched(
    ready: seq<Tid>,
    all: seq<Tid>,
    idle: Option<Tid>,
    status: map<Tid, Status>,
    graph: Graph,
    mlfqs: bool,
    priority: map<Tid, int>,
    asleep: seq<Tid>,
    wakeup: map<Tid, int>,
    ticks: int)

  ghost predicate Distinct(s: seq<Tid>) {
    forall i, j :: 0 <= i < j < |s| ==> s[i] != s[j]
  }

  ghost predicate HasStatus(s: Sched, t: Tid, st: Status) {
    t in s.status && s.status[t] == st
  }

  ghost predicate Waiting(g: Graph, t: Tid) {
    exists l, j :: l in g.waiters && 0 <= j < |g.waiters[l]| && g.waiters[l][j] == t
  }

  // ---------------------------------------------------------------- what always holds

  /** The ready list holds each READY thread once, and no other; an established idle thread is never on it. */
  ghost predicate ReadyOk(s: Sched) {
    && Distinct(s.ready)
    && (forall t :: t in s.ready ==> HasStatus(s, t, Ready) && s.idle != Some(t))
    && (forall t: Tid :: HasStatus(s, t, Ready) && s.idle != Some(t) ==> t in s.ready)
  }

  /** The list of all threads holds each thread that is not dying, once. */
  ghost predicate AllOk(s: Sched) {
    && Distinct(s.all)
    && forall t :: t in s.all <==> t in s.status && s.status[t] != Dying
  }

  /** Sleepers are BLOCKED, wait for nothing else, and lie in the order in which they wake. */
  ghost predicate AsleepOk(s: Sched) {
    && Distinct(s.asleep)
    && (forall t :: t in s.asleep ==> HasStatus(s, t, Blocked) && t in s.wakeup && !Waiting(s.graph, t) && s.idle != Some(t))
    && (forall i, j :: 0 <= i < j < |s.asleep| ==> s.wakeup[s.asleep[i]] <= s.wakeup[s.asleep[j]])
  }

  ghost predicate GraphOk(s: Sched) {
    && Wf(s.graph) && NoDeadlock(s.graph) && s.graph.base.Keys == s.status.Keys
    && (forall t: Tid :: Waiting(s.graph, t) ==> HasStatus(s, t, Blocked) && s.idle != Some(t))
    && (forall t :: HasStatus(s, t, Dying) ==> s.graph.held[t] == [])
    && (forall t :: t in s.status ==> t in s.priority)
  }

  ghost predicate IdleOk(s: Sched) {
    s.idle.Some? ==> s.idle.value in s.status && s.status[s.idle.value] != Dying
  }

  ghost predicate Coherent(s: Sched) {
    ReadyOk(s) && AllOk(s) && AsleepOk(s) && GraphOk(s) && IdleOk(s)
  }

  ghost predicate OnlyRunning(s: Sched, current: Tid) {
    HasStatus(s, current, Running) && forall t :: HasStatus(s, t, Running) ==> t == current
  }

  /** Inside schedule(): the current thread has left the RUNNING state. */
  ghost predicate NoneRunning(s: Sched) {
    forall t :: !HasStatus(s, t, Running)
  }

  // ---------------------------------------------------------------- choosing a thread

  /** get_priority in either mode. */
  ghost predicate PriorityIs(s: Sched, t: Tid, p: int) {
    if s.mlfqs then t in s.priority && s.priority[t] == p
    else Wf(s.graph) && Effective(s.graph, t, p)
  }

  ghost predicate NotAbove(s: Sched, r: Tid, t: Tid) {
    forall p, q :: PriorityIs(s, r, p) && PriorityIs(s, t, q) ==> p <= q
  }

  function RemoveAt(xs: seq<Tid>, k: nat): seq<Tid>
    requires k < |xs|
  {
    xs[..k] + xs[k + 1..]
  }

  /** next_thread_to_run takes t off the ready list, a thread of the highest priority there; or the list is empty and t is the idle thread. */
  ghost predicate Picked(s: Sched, t: Tid, s': Sched) {
    if s.ready == [] then s.idle == Some(t) && s' == s
    else
      && (exists k :: 0 <= k < |s.ready| && s.ready[k] == t && s' == s.(ready := RemoveAt(s.ready, k)))
      && forall r :: r in s.ready ==> NotAbove(s, r, t)
  }

  /** thread_schedule_tail: next runs; a dying prev (other than the initial thread) is freed. */
  function Tail(s: Sched, prev: Tid, next: Tid, initial: Tid): Sched {
    var r := s.(status := s.status[next := Running]);
    if prev != next && prev in r.status && r.status[prev] == Dying && prev != initial then
      r.(status := r.status - {prev}, graph := Without(r.graph, prev))
    else r
  }

  lemma RemovedAt(xs: seq<Tid>, k: nat)
    requires k < |xs| && Distinct(xs)
    ensures Distinct(RemoveAt(xs, k))
    ensures forall x :: x in RemoveAt(xs, k) <==> x in xs && x != xs[k]
  {
    var ys := RemoveAt(xs, k);
    assert forall i :: 0 <= i < |ys| ==> ys[i] == if i < k then xs[i] else xs[i + 1];
    forall x | x in xs && x != xs[k] ensures x in ys {
      var i :| 0 <= i < |xs| && xs[i] == x;
      assert ys[if i < k then i else i - 1] == x;
    }
  }

  /** The picked thread can run: it is on no list and waits for nothing. */
  lemma PickedIsFree(s: Sched, t: Tid, s': Sched)
    requires Coherent(s) && NoneRunning(s) && Picked(s, t, s')
    ensures t in s.status && s.status[t] != Dying && s.status[t] != Running
    ensures t !in s'.ready && t !in s'.asleep && !Waiting(s'.graph, t)
    ensures s' == s.(ready := s'.ready)
    ensures Distinct(s'.ready) && forall r :: r in s'.ready <==> r in s.ready && r != t
  {
    assert !HasStatus(s, t, Running);
    if s.ready != [] {
      var k :| 0 <= k < |s.ready| && s.ready[k] == t && s' == s.(ready := RemoveAt(s.ready, k));
      RemovedAt(s.ready, k);
      assert HasStatus(s, t, Ready);
    }
  }

  /** Giving the picked thread the processor. */
  lemma RunKeeps(s: Sched, t: Tid, m: Sched, r: Sched)
    requires Coherent(s) && NoneRunning(s) && Picked(s, t, m)
    requires r == m.(status := m.status[t := Running])
    ensures Coherent(r) && OnlyRunning(r, t)
  {
    PickedIsFree(s, t, m);
    forall u: Tid, st: Status | u != t ensures HasStatus(r, u, st) <==> HasStatus(s, u, st) {
    }
    assert OnlyRunning(r, t) by {
      assert forall u :: u != t ==> !HasStatus(r, u, Running);
    }
    RunKeepsReady(s, t, m, r);
    assert AllOk(r);
    assert AsleepOk(r);
    assert GraphOk(r);
  }

  lemma RunKeepsReady(s: Sched, t: Tid, m: Sched, r: Sched)
    requires ReadyOk(s) && r == m.(status := m.status[t := Running]) && m == s.(ready := m.ready)
    requires Distinct(m.ready) && forall u :: u in m.ready <==> u in s.ready && u != t
    ensures ReadyOk(r)
  {
    forall u: Tid | HasStatus(r, u, Ready) && r.idle != Some(u) ensures u in r.ready {
      assert HasStatus(s, u, Ready);
    }
    forall u | u in r.ready ensures HasStatus(r, u, Ready) {
      assert HasStatus(s, u, Ready);
    }
  }

  /** After the tail, all queues are coherent again and exactly the chosen thread runs. */
  lemma TailKeeps(s: Sched, t: Tid, m: Sched, prev: Tid, initial: Tid, f: Sched)
    requires Coherent(s) && NoneRunning(s) && Picked(s, t, m) && f == Tail(m, prev, t, initial)
    ensures Valid(f, t)
  {
    var r := m.(status := m.status[t := Running]);
    RunKeeps(s, t, m, r);
    if prev != t && prev in r.status && r.status[prev] == Dying && prev != initial {
      FreeKeeps(r, prev, f);
      assert HasStatus(f, t, Running);
      forall u: Tid | HasStatus(f, u, Running) ensures u == t {
        assert HasStatus(r, u, Running);
      }
    }
  }

  /** Freeing a dying thread. */
  lemma FreeKeeps(s: Sched, t: Tid, r: Sched)
    requires Coherent(s) && HasStatus(s, t, Dying)
    requires r == s.(status := s.status - {t}, graph := Without(s.graph, t))
    ensures Coherent(r)
  {
    assert !Waiting(s.graph, t);
    FreedWaiting(s, t, r);
    FreedQueues(s, t, r);
    FreedGraph(s, t, r);
  }

  lemma FreedWaiting(s: Sched, t: Tid, r: Sched)
    requires r.graph == Without(s.graph, t)
    ensures forall u: Tid :: Waiting(r.graph, u) <==> Waiting(s.graph, u)
  {
    assert r.graph.waiters == s.graph.waiters;
  }

  lemma FreedQueues(s: Sched, t: Tid, r: Sched)
    requires ReadyOk(s) && AllOk(s) && AsleepOk(s) && IdleOk(s) && HasStatus(s, t, Dying)
    requires r == s.(status := s.status - {t}, graph := r.graph)
    requires forall u: Tid :: Waiting(r.graph, u) <==> Waiting(s.graph, u)
    ensures ReadyOk(r) && AllOk(r) && AsleepOk(r) && IdleOk(r)
  {
    hide Waiting;
    assert forall u: Tid, st: Status :: HasStatus(r, u, st) <==> HasStatus(s, u, st) && u != t;
  }

  lemma FreedGraph(s: Sched, t: Tid, r: Sched)
    requires GraphOk(s) && HasStatus(s, t, Dying) && !Waiting(s.graph, t)
    requires r == s.(status := s.status - {t}, graph := Without(s.graph, t))
    requires forall u: Tid :: Waiting(r.graph, u) <==> Waiting(s.graph, u)
    ensures GraphOk(r)
  {
    FreedIsIsolated(s, t);
    WithoutKeeps(s.graph, t);
    hide Waiting, NoDeadlock;
    assert forall u: Tid, st: Status :: HasStatus(r, u, st) <==> HasStatus(s, u, st) && u != t;
  }

  lemma FreedIsIsolated(s: Sched, t: Tid)
    requires GraphOk(s) && HasStatus(s, t, Dying) && !Waiting(s.graph, t)
    ensures Isolated(s.graph, t)
  {
  }

  // ---------------------------------------------------------------- the state changes around schedule()

  /** thread_unblock(t). */
  function Unblocked(s: Sched, t: Tid): Sched {
    s.(ready := s.ready + [t], status := s.status[t := Ready])
  }

  /** Only thread t's status differs. */
  ghost predicate OnlyChanges(s: Sched, r: Sched, t: Tid) {
    forall u: Tid, st: Status :: u != t ==> (HasStatus(r, u, st) <==> HasStatus(s, u, st))
  }

  lemma JoinsReady(s: Sched, r: Sched, t: Tid)
    requires ReadyOk(s) && OnlyChanges(s, r, t) && r.idle == s.idle != Some(t)
    requires !HasStatus(s, t, Ready) && HasStatus(r, t, Ready) && r.ready == s.ready + [t]
    ensures ReadyOk(r)
  {
    assert t !in s.ready;
    forall u: Tid | HasStatus(r, u, Ready) && r.idle != Some(u) ensures u in r.ready {
      assert u != t ==> HasStatus(s, u, Ready);
    }
  }

  lemma KeepsReady(s: Sched, r: Sched, t: Tid)
    requires ReadyOk(s) && OnlyChanges(s, r, t) && r.idle == s.idle && r.ready == s.ready
    requires !HasStatus(s, t, Ready) && (HasStatus(r, t, Ready) ==> s.idle == Some(t))
    ensures ReadyOk(r)
  {
    assert t !in s.ready;
    forall u: Tid | HasStatus(r, u, Ready) && r.idle != Some(u) ensures u in r.ready {
      assert u != t ==> HasStatus(s, u, Ready);
    }
  }

  lemma KeepsAsleep(s: Sched, r: Sched, t: Tid)
    requires AsleepOk(s) && OnlyChanges(s, r, t) && r.idle == s.idle && r.asleep == s.asleep && r.wakeup == s.wakeup
    requires forall u: Tid :: u != t && Waiting(r.graph, u) ==> Waiting(s.graph, u)
    requires t !in s.asleep
    ensures AsleepOk(r)
  {
  }

  lemma KeepsGraph(s: Sched, r: Sched, t: Tid)
    requires GraphOk(s) && OnlyChanges(s, r, t) && r.idle == s.idle && r.graph == s.graph
    requires r.status.Keys == s.status.Keys && r.priority == s.priority
    requires !Waiting(s.graph, t) && (HasStatus(r, t, Dying) ==> t in s.graph.held && s.graph.held[t] == [])
    ensures GraphOk(r)
  {
  }

  lemma RunningIsFree(s: Sched, current: Tid)
    requires Valid(s, current)
    ensures current !in s.ready && current !in s.asleep && !Waiting(s.graph, current)
    ensures !HasStatus(s, current, Ready) && current in s.status
  {
    assert HasStatus(s, current, Running);
    assert !HasStatus(s, current, Ready) && !HasStatus(s, current, Blocked);
  }

  lemma NoOtherRuns(s: Sched, r: Sched, current: Tid)
    requires OnlyRunning(s, current) && OnlyChanges(s, r, current) && !HasStatus(r, current, Running)
    ensures NoneRunning(r)
  {
    forall u ensures !HasStatus(r, u, Running) {
      assert u != current ==> !HasStatus(s, u, Running);
    }
  }

  lemma UnblockKeeps(s: Sched, t: Tid, current: Tid, r: Sched)
    requires Valid(s, current) && HasStatus(s, t, Blocked) && r == Unblocked(s, t)
    requires s.idle != Some(t) && t !in s.asleep && !Waiting(s.graph, t)
    ensures Valid(r, current)
  {
    hide ReadyOk, AsleepOk, GraphOk, Waiting;
    assert OnlyChanges(s, r, t);
    JoinsReady(s, r, t);
    KeepsAsleep(s, r, t);
    KeepsGraph(s, r, t);
    StillRuns(s, r, t, current);
    assert AllOk(r);
  }

  lemma StillRuns(s: Sched, r: Sched, t: Tid, current: Tid)
    requires OnlyRunning(s, current) && OnlyChanges(s, r, t) && t != current && !HasStatus(r, t, Running)
    ensures OnlyRunning(r, current)
  {
    assert HasStatus(s, current, Running);
    assert forall u: Tid :: HasStatus(r, u, Running) ==> HasStatus(s, u, Running);
  }

  /** thread_yield puts the running thread at the back of the ready list, unless it is the idle thread. */
  function Yielding(s: Sched, current: Tid): Sched {
    s.(ready := if s.idle == Some(current) then s.ready else s.ready + [current], status := s.status[current := Ready])
  }

  lemma YieldingKeeps(s: Sched, current: Tid, r: Sched)
    requires Valid(s, current) && r == Yielding(s, current)
    ensures Coherent(r) && NoneRunning(r)
  {
    RunningIsFree(s, current);
    assert OnlyChanges(s, r, current);
    if s.idle == Some(current) { KeepsReady(s, r, current); } else { JoinsReady(s, r, current); }
    KeepsAsleep(s, r, current);
    KeepsGraph(s, r, current);
    NoOtherRuns(s, r, current);
    assert AllOk(r);
  }

  /** thread_block, after its caller has queued the thread: g is the wait-for graph with it queued. */
  function Blocking(s: Sched, current: Tid, g: Graph): Sched {
    s.(status := s.status[current := Blocked], graph := g)
  }

  /** The graph after the running thread has queued itself, or not, on some lock. */
  ghost predicate MayWait(s: Sched, current: Tid, g: Graph) {
    && Wf(g) && NoDeadlock(g) && g.base == s.graph.base && g.held == s.graph.held
    && (forall t: Tid :: Waiting(g, t) ==> (Waiting(s.graph, t) || t == current) && s.idle != Some(t))
  }

  lemma BlockingKeeps(s: Sched, current: Tid, g: Graph, r: Sched)
    requires Valid(s, current) && MayWait(s, current, g) && r == Blocking(s, current, g)
    ensures Coherent(r) && NoneRunning(r)
  {
    RunningIsFree(s, current);
    assert OnlyChanges(s, r, current);
    KeepsReady(s, r, current);
    KeepsAsleep(s, r, current);
    NoOtherRuns(s, r, current);
    assert AllOk(r);
    BlockedGraph(s, current, g, r);
    hide ReadyOk, AllOk, AsleepOk, GraphOk;
  }

  lemma BlockedGraph(s: Sched, current: Tid, g: Graph, r: Sched)
    requires GraphOk(s) && HasStatus(s, current, Running) && MayWait(s, current, g) && r == Blocking(s, current, g)
    ensures GraphOk(r)
  {
    assert forall t :: t in s.graph.base ==> t in s.graph.held;
    hide Waiting, NoDeadlock, Wf;
    forall t: Tid | Waiting(g, t) ensures HasStatus(r, t, Blocked) && s.idle != Some(t) {
      if t != current {
        assert Waiting(s.graph, t);
      }
    }
    forall t | HasStatus(r, t, Dying) ensures t in g.held && g.held[t] == [] {
      assert HasStatus(s, t, Dying);
    }
  }

  /** What synch.c may do to the graph while a thread runs: locks change hands and waiters leave their lists. */
  ghost predicate MayRelock(s: Sched, g: Graph) {
    && Wf(g) && NoDeadlock(g) && g.base == s.graph.base
    && (forall t: Tid :: Waiting(g, t) ==> Waiting(s.graph, t))
    && (forall t: Tid :: HasStatus(s, t, Dying) ==> t in g.held && g.held[t] == [])
  }

  lemma RelockKeeps(s: Sched, current: Tid, g: Graph)
    requires Valid(s, current) && MayRelock(s, g)
    ensures Valid(s.(graph := g), current)
  {
    var r := s.(graph := g);
    assert forall u: Tid, st: Status :: HasStatus(r, u, st) <==> HasStatus(s, u, st);
    assert HasStatus(r, current, Running) by {
      assert HasStatus(s, current, Running);
    }
  }

  /** thread_exit. */
  function Exiting(s: Sched, current: Tid, k: nat): Sched
    requires k < |s.all|
  {
    s.(all := RemoveAt(s.all, k), status := s.status[current := Dying])
  }

  lemma ExitingKeeps(s: Sched, current: Tid, k: nat, r: Sched)
    requires Valid(s, current) && k < |s.all| && s.all[k] == current && r == Exiting(s, current, k)
    requires s.idle != Some(current) && s.graph.held[current] == []
    ensures Coherent(r) && NoneRunning(r)
  {
    RunningIsFree(s, current);
    assert OnlyChanges(s, r, current);
    RemovedAt(s.all, k);
    KeepsReady(s, r, current);
    KeepsAsleep(s, r, current);
    KeepsGraph(s, r, current);
    NoOtherRuns(s, r, current);
  }

  /** init_thread: a new blocked thread with no locks, at the end of the list of all threads. */
  function Created(s: Sched, t: Tid, base: int, mlfqsPriority: int): Sched {
    s.(all := s.all + [t], status := s.status[t := Blocked],
       graph := Graph(s.graph.base[t := base], s.graph.held[t := []], s.graph.waiters),
       priority := s.priority[t := mlfqsPriority])
  }

  /** Every thread but t has the effective priority it had. */
  ghost predicate SamePriorities(s: Sched, r: Sched, t: Tid)
    requires Wf(s.graph) && Wf(r.graph)
  {
    forall u: Tid, p: int :: u != t ==> (Effective(r.graph, u, p) <==> Effective(s.graph, u, p))
  }

  lemma CreatedGraph(s: Sched, t: Tid, base: int, mlfqsPriority: int)
    requires GraphOk(s) && t !in s.status && PRI_MIN <= base <= PRI_MAX
    ensures
      var r := Created(s, t, base, mlfqsPriority);
      && Wf(r.graph) && NoDeadlock(r.graph) && SamePriorities(s, r, t)
      && (forall u: Tid :: Waiting(r.graph, u) <==> Waiting(s.graph, u))
      && !Waiting(s.graph, t)
  {
    var r := Created(s, t, base, mlfqsPriority);
    assert Wf(r.graph);
    assert !Waiting(s.graph, t);
    assert Isolated(r.graph, t);
    assert Without(r.graph, t) == s.graph;
    WithoutKeeps(r.graph, t);
  }

  lemma CreatedGraphOk(s: Sched, t: Tid, base: int, mlfqsPriority: int)
    requires GraphOk(s) && t !in s.status && PRI_MIN <= base <= PRI_MAX
    ensures GraphOk(Created(s, t, base, mlfqsPriority))
  {
    CreatedGraph(s, t, base, mlfqsPriority);
    assert OnlyChanges(s, Created(s, t, base, mlfqsPriority), t);
  }

  lemma CreatedKeeps(s: Sched, t: Tid, base: int, mlfqsPriority: int, current: Tid, r: Sched)
    requires Valid(s, current) && t !in s.status && PRI_MIN <= base <= PRI_MAX
    requires r == Created(s, t, base, mlfqsPriority)
    ensures Valid(r, current) && HasStatus(r, t, Blocked)
    ensures r.idle != Some(t) && t !in r.asleep && !Waiting(r.graph, t)
    ensures Wf(s.graph) && Wf(r.graph) && SamePriorities(s, r, t)
  {
    hide SamePriorities;
    assert t !in s.asleep;
    CreatedGraphOk(s, t, base, mlfqsPriority);
    CreatedGraph(s, t, base, mlfqsPriority);
    CreatedQueues(s, r, t);
    CreatedRuns(s, r, t, current);
  }

  lemma CreatedQueues(s: Sched, r: Sched, t: Tid)
    requires ReadyOk(s) && AsleepOk(s) && AllOk(s) && t !in s.status
    requires r == s.(all := s.all + [t], status := s.status[t := Blocked], graph := r.graph, priority := r.priority)
    requires forall u: Tid :: Waiting(r.graph, u) <==> Waiting(s.graph, u)
    ensures ReadyOk(r) && AsleepOk(r) && AllOk(r) && OnlyChanges(s, r, t) && HasStatus(r, t, Blocked)
  {
    assert OnlyChanges(s, r, t);
    KeepsReady(s, r, t);
    KeepsAsleep(s, r, t);
  }

  lemma CreatedRuns(s: Sched, r: Sched, t: Tid, current: Tid)
    requires OnlyRunning(s, current) && OnlyChanges(s, r, t) && t !in s.status && HasStatus(r, t, Blocked)
    ensures OnlyRunning(r, current)
  {
    assert HasStatus(s, current, Running) && current != t;
    assert forall u: Tid :: HasStatus(r, u, Running) ==> HasStatus(s, u, Running);
  }

  // ---------------------------------------------------------------- sleeping

  /** How many sleepers at the front of the list are due. */
  function Due(asleep: seq<Tid>, wakeup: map<Tid, int>, now: int): (n: nat)
    ensures n <= |asleep|
    ensures forall i :: 0 <= i < n ==> asleep[i] in wakeup && wakeup[asleep[i]] <= now
    ensures n < |asleep| ==> asleep[n] !in wakeup || wakeup[asleep[n]] > now
  {
    if asleep == [] || asleep[0] !in wakeup || wakeup[asleep[0]] > now then 0
    else 1 + Due(asleep[1..], wakeup, now)
  }

  /** list_insert_ordered by wakeup_ticks: before the first sleeper that wakes strictly later. */
  function InsertAt(asleep: seq<Tid>, wakeup: map<Tid, int>, at: int): (n: nat)
    ensures n <= |asleep|
    ensures n < |asleep| ==> asleep[n] !in wakeup || at < wakeup[asleep[n]]
    ensures forall i :: 0 <= i < n ==> asleep[i] in wakeup && wakeup[asleep[i]] <= at
  {
    if asleep == [] || asleep[0] !in wakeup || at < wakeup[asleep[0]] then 0
    else 1 + InsertAt(asleep[1..], wakeup, at)
  }

  /** The first sleeper leaves the list and is unblocked. */
  function WakeOne(s: Sched): Sched
    requires s.asleep != []
  {
    Unblocked(s.(asleep := s.asleep[1..]), s.asleep[0])
  }

  /** The first n sleepers wake, in order. */
  function Woken(s: Sched, n: nat): Sched
    requires n <= |s.asleep|
    decreases n
  {
    if n == 0 then s else Woken(WakeOne(s), n - 1)
  }

  /** Coherent queues, and exactly the current thread running. */
  ghost predicate Valid(s: Sched, current: Tid) {
    Coherent(s) && OnlyRunning(s, current)
  }

  /** Every sleeper at the front that is due wakes. */
  function DueWoken(s: Sched): Sched {
    Woken(s, Due(s.asleep, s.wakeup, s.ticks))
  }

  /** The timer interrupt, as far as sleepers go. */
  function Interrupted(s: Sched): Sched {
    DueWoken(s.(ticks := s.ticks + 1))
  }

  lemma DueWokenStep(s: Sched)
    ensures
      if s.asleep == [] || s.asleep[0] !in s.wakeup || s.wakeup[s.asleep[0]] > s.ticks then DueWoken(s) == s
      else DueWoken(s) == DueWoken(WakeOne(s))
  {
  }

  /** Exactly the due threads wake: the sorted list and the early exit miss none. */
  lemma DueIsAll(s: Sched, now: int, t: Tid)
    requires AsleepOk(s) && t in s.asleep
    ensures t in s.asleep[..Due(s.asleep, s.wakeup, now)] <==> s.wakeup[t] <= now
  {
    var n := Due(s.asleep, s.wakeup, now);
    var i :| 0 <= i < |s.asleep| && s.asleep[i] == t;
    if i < n { assert s.asleep[..n][i] == t; }
    if t in s.asleep[..n] {
      var j :| 0 <= j < n && s.asleep[..n][j] == t;
    }
  }

  lemma {:induction false} WokenIs(s: Sched, n: nat)
    requires n <= |s.asleep|
    ensures Woken(s, n).asleep == s.asleep[n..] && Woken(s, n).ready == s.ready + s.asleep[..n]
    ensures Woken(s, n) == s.(asleep := Woken(s, n).asleep, ready := Woken(s, n).ready, status := Woken(s, n).status)
    ensures forall t: Tid :: t in Woken(s, n).status <==> t in s.status || t in s.asleep[..n]
    ensures forall t: Tid :: t in Woken(s, n).status ==>
              Woken(s, n).status[t] == if t in s.asleep[..n] then Ready else s.status[t]
    decreases n
  {
    if n > 0 {
      WokenIs(WakeOne(s), n - 1);
      assert s.asleep[..n] == [s.asleep[0]] + s.asleep[1..][..n - 1];
    }
  }

  lemma WokenFrame(s: Sched, n: nat)
    requires n <= |s.asleep|
    ensures Woken(s, n).asleep == s.asleep[n..]
    ensures Woken(s, n).ticks == s.ticks && Woken(s, n).wakeup == s.wakeup
  {
    WokenIs(s, n);
  }

  lemma WakeOneKeeps(s: Sched, current: Tid)
    requires Valid(s, current) && s.asleep != []
    ensures Valid(WakeOne(s), current)
  {
    var t := s.asleep[0];
    var m := s.(asleep := s.asleep[1..]);
    assert t in s.asleep && HasStatus(s, t, Blocked);
    assert forall i :: 0 <= i < |m.asleep| ==> m.asleep[i] == s.asleep[i + 1] && m.asleep[i] in s.asleep;
    assert Coherent(m) && OnlyRunning(m, current) by {
      assert HasStatus(m, current, Running);
      assert forall u: Tid :: HasStatus(m, u, Running) ==> HasStatus(s, u, Running);
      assert forall u: Tid, st: Status :: HasStatus(m, u, st) <==> HasStatus(s, u, st);
    }
    UnblockKeeps(m, t, current, Unblocked(m, t));
  }

  lemma {:induction false} WokenKeeps(s: Sched, n: nat, current: Tid, r: Sched)
    requires Valid(s, current) && n <= |s.asleep| && r == Woken(s, n)
    ensures Valid(r, current)
    decreases n
  {
    hide Valid;
    if n > 0 {
      WakeOneKeeps(s, current);
      WokenKeeps(WakeOne(s), n - 1, current, r);
    }
  }

  lemma InterruptKeepsValid(s: Sched, current: Tid, r: Sched)
    requires Valid(s, current) && r == Interrupted(s)
    ensures Valid(r, current)
  {
    var now := s.(ticks := s.ticks + 1);
    TickKeeps(s, now, current);
    WokenKeeps(now, Due(now.asleep, now.wakeup, now.ticks), current, r);
  }

  /** One timer interrupt wakes exactly the sleepers that are due. */
  lemma InterruptWakesDue(s: Sched, r: Sched)
    requires AsleepOk(s) && r == Interrupted(s)
    ensures r.ticks == s.ticks + 1 && r.wakeup == s.wakeup
    ensures forall t: Tid :: t in s.asleep ==> (t in r.asleep <==> s.wakeup[t] > s.ticks + 1)
    ensures forall t: Tid :: t in r.asleep ==> t in s.asleep
  {
    var now := s.(ticks := s.ticks + 1);
    var n := Due(now.asleep, now.wakeup, now.ticks);
    WokenFrame(now, n);
    TickKeepsAsleep(s, now);
    hide Woken, Due;
    forall t: Tid | t in s.asleep ensures t in s.asleep[n..] <==> s.wakeup[t] > s.ticks + 1 {
      DueIsAll(now, now.ticks, t);
      SplitAt(s.asleep, n, t);
    }
  }

  lemma TickKeeps(s: Sched, now: Sched, current: Tid)
    requires Valid(s, current) && now == s.(ticks := s.ticks + 1)
    ensures Coherent(now) && OnlyRunning(now, current)
  {
    assert forall u: Tid, st: Status :: HasStatus(now, u, st) <==> HasStatus(s, u, st);
  }

  lemma TickKeepsAsleep(s: Sched, now: Sched)
    requires AsleepOk(s) && now == s.(ticks := s.ticks + 1)
    ensures AsleepOk(now)
  {
    assert forall u: Tid, st: Status :: HasStatus(now, u, st) <==> HasStatus(s, u, st);
  }

  lemma SplitAt(xs: seq<Tid>, n: nat, t: Tid)
    requires Distinct(xs) && n <= |xs| && t in xs
    ensures t in xs[n..] <==> t !in xs[..n]
  {
    var i :| 0 <= i < |xs| && xs[i] == t;
    if i < n { assert xs[..n][i] == t; } else { assert xs[n..][i - n] == t; }
  }

  /** k timer interrupts with nothing else. */
  function Interrupts(s: Sched, k: nat): Sched {
    if k == 0 then s else Interrupted(Interrupts(s, k - 1))
  }

  /** No sleeper wakes early, and each wakes at the first interrupt whose tick reaches its deadline. */
  lemma {:induction false} WakesOnTime(s: Sched, k: nat, t: Tid, current: Tid)
    requires Valid(s, current) && t in s.asleep && k > 0
    ensures Valid(Interrupts(s, k), current)
    ensures Interrupts(s, k).ticks == s.ticks + k && Interrupts(s, k).wakeup == s.wakeup
    ensures t in Interrupts(s, k).asleep <==> s.wakeup[t] > s.ticks + k
    ensures t in s.wakeup
    decreases k
  {
    var before := Interrupts(s, k - 1);
    if k > 1 {
      WakesOnTime(s, k - 1, t, current);
    }
    InterruptKeepsValid(before, current, Interrupts(s, k));
    InterruptWakesDue(before, Interrupts(s, k));
  }

  /** timer_sleep's insertion keeps the list sorted. */
  function Sleeping(s: Sched, current: Tid, at: int): Sched {
    var n := InsertAt(s.asleep, s.wakeup, at);
    s.(asleep := s.asleep[..n] + [current] + s.asleep[n..], wakeup := s.wakeup[current := at],
       status := s.status[current := Blocked])
  }

  lemma InsertedAt(xs: seq<Tid>, n: nat, x: Tid, ys: seq<Tid>)
    requires n <= |xs| && ys == xs[..n] + [x] + xs[n..] && x !in xs && Distinct(xs)
    ensures forall i :: 0 <= i < |ys| ==> ys[i] == if i < n then xs[i] else if i == n then x else xs[i - 1]
    ensures Distinct(ys) && forall t :: t in ys <==> t in xs || t == x
  {
    forall t | t in xs ensures t in ys {
      var i :| 0 <= i < |xs| && xs[i] == t;
      assert ys[if i < n then i else i + 1] == t;
    }
    assert ys[n] == x;
  }

  lemma InsertKeepsOrder(s: Sched, current: Tid, at: int)
    requires AsleepOk(s) && current !in s.asleep
    ensures
      var r := Sleeping(s, current, at);
      && Distinct(r.asleep) && (forall t :: t in r.asleep <==> t in s.asleep || t == current)
      && (forall i, j :: 0 <= i < j < |r.asleep| ==> r.wakeup[r.asleep[i]] <= r.wakeup[r.asleep[j]])
  {
    var n := InsertAt(s.asleep, s.wakeup, at);
    var r := Sleeping(s, current, at);
    InsertedAt(s.asleep, n, current, r.asleep);
    forall i, j | 0 <= i < j < |r.asleep| ensures r.wakeup[r.asleep[i]] <= r.wakeup[r.asleep[j]] {
      if j == n {
        assert r.asleep[i] == s.asleep[i] != current;
      } else if i == n {
        assert r.asleep[j] == s.asleep[j - 1] != current;
        assert s.wakeup[s.asleep[n]] <= s.wakeup[s.asleep[j - 1]];
      } else {
        assert r.asleep[i] != current && r.asleep[j] != current;
      }
    }
  }

  lemma SleepingKeeps(s: Sched, current: Tid, at: int, r: Sched)
    requires Valid(s, current) && s.idle != Some(current) && r == Sleeping(s, current, at)
    ensures Coherent(r) && NoneRunning(r)
  {
    hide ReadyOk, AsleepOk, GraphOk, Sleeping, Waiting;
    RunningIsFree(s, current);
    FallenAsleep(s, current, at, r);
    assert OnlyChanges(s, r, current);
    KeepsReady(s, r, current);
    KeepsGraph(s, r, current);
    NoOtherRuns(s, r, current);
    assert AllOk(r);
  }

  /** The sleeper is on the list with the deadline it asked for; nobody else's changes. */
  lemma SleepsUntil(s: Sched, current: Tid, until: int)
    requires Valid(s, current)
    ensures current !in s.asleep
    ensures
      var r := Sleeping(s, current, until);
      && (forall t :: t in r.asleep <==> t in s.asleep || t == current)
      && (forall t :: t in r.asleep ==> t in r.wakeup && r.wakeup[t] == if t == current then until else s.wakeup[t])
      && r.ticks == s.ticks
  {
    RunningIsFree(s, current);
    InsertKeepsOrder(s, current, until);
  }

  lemma FallenAsleep(s: Sched, current: Tid, at: int, r: Sched)
    requires AsleepOk(s) && HasStatus(s, current, Running) && r == Sleeping(s, current, at)
    requires s.idle != Some(current) && !Waiting(s.graph, current)
    ensures AsleepOk(r)
    ensures r == s.(asleep := r.asleep, wakeup := r.wakeup, status := s.status[current := Blocked])
  {
    assert current !in s.asleep;
    InsertKeepsOrder(s, current, at);
    hide Waiting;
  }
}
