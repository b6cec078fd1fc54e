/** Whole runs of the thread system: any sequence of the operations that class Kernel proves. */
module ThreadRuns {
  import opened Machine
  import opened Donation
  import opened Scheduler
  import opened Kernels

  datatype Op =
    | Create(t: Tid, base: int, mlfqsPriority: int)
    | Block(g: Graph)
    | Unblock(t: Tid)
    | Yield
    | Exit(k: nat)
    | Sleep(until: int)
    | Tick
    | SetPriority(p: int)
    | BecomeIdle
    | Relock(g: Graph)
    | Reprioritise(priority: map<Tid, int>)   // what a tick and thread_set_nice recompute in feedback-queue mode

  /** The scheduler's state and the running thread. */
  datatype Point = Point(s: Sched, current: Tid)

  /** The operation, up to the point where it calls schedule(). */
  ghost predicate Enters(p: Point, op: Op, m: Sched) {
    var s, c := p.s, p.current;
    match op
    case Create(t, base, pr) =>
      t !in s.status && PRI_MIN <= base <= PRI_MAX && m == Yielding(Unblocked(Created(s, t, base, pr), t), c)
    case Block(g) => MayWait(s, c, g) && m == Blocking(s, c, g)
    case Yield => m == Yielding(s, c)
    case Exit(k) =>
      k < |s.all| && s.all[k] == c && s.idle != Some(c) && c in s.graph.held && s.graph.held[c] == [] && m == Exiting(s, c, k)
    case Sleep(until) => s.idle != Some(c) && m == Sleeping(s, c, until)
    case SetPriority(x) =>
      PRI_MIN <= x <= PRI_MAX && m == Yielding(s.(graph := s.graph.(base := s.graph.base[c := x])), c)
    case _ => false
  }

  ghost predicate Step(p: Point, op: Op, p': Point, initial: Tid) {
    match op
    case Unblock(t) =>
      && HasStatus(p.s, t, Blocked) && p.s.idle != Some(t) && t !in p.s.asleep && !Waiting(p.s.graph, t)
      && p' == Point(Unblocked(p.s, t), p.current)
    case Tick => p' == Point(Interrupted(p.s), p.current)
    case BecomeIdle => p.s.idle == None && p' == Point(p.s.(idle := Some(p.current)), p.current)
    case Relock(g) => MayRelock(p.s, g) && p' == Point(p.s.(graph := g), p.current)
    case Reprioritise(pr) => p.s.mlfqs && pr.Keys == p.s.priority.Keys && p' == Point(p.s.(priority := pr), p.current)
    case _ => exists m :: Enters(p, op, m) && Scheduled(m, p.current, p'.s, p'.current, initial)
  }

  ghost predicate Good(p: Point) {
    Scheduler.Valid(p.s, p.current)
  }

  lemma CreateEnters(s: Sched, c: Tid, t: Tid, base: int, pr: int, m: Sched)
    requires Scheduler.Valid(s, c) && t !in s.status && PRI_MIN <= base <= PRI_MAX
    requires m == Yielding(Unblocked(Created(s, t, base, pr), t), c)
    ensures Coherent(m) && NoneRunning(m)
  {
    var a := Created(s, t, base, pr);
    CreatedKeeps(s, t, base, pr, c, a);
    UnblockKeeps(a, t, c, Unblocked(a, t));
    YieldingKeeps(Unblocked(a, t), c, m);
  }

  lemma SetPriorityEnters(s: Sched, c: Tid, x: int, m: Sched)
    requires Scheduler.Valid(s, c) && PRI_MIN <= x <= PRI_MAX
    requires m == Yielding(s.(graph := s.graph.(base := s.graph.base[c := x])), c)
    ensures Coherent(m) && NoneRunning(m)
  {
    assert HasStatus(s, c, Running);
    RebaseKeeps(s, c, x);
    YieldingKeeps(s.(graph := s.graph.(base := s.graph.base[c := x])), c, m);
  }

  lemma EntersKeeps(p: Point, op: Op, m: Sched)
    requires Good(p) && Enters(p, op, m)
    ensures Coherent(m) && NoneRunning(m)
  {
    var s, c := p.s, p.current;
    if op.Create? {
      CreateEnters(s, c, op.t, op.base, op.mlfqsPriority, m);
    } else if op.Block? {
      BlockingKeeps(s, c, op.g, m);
    } else if op.Yield? {
      YieldingKeeps(s, c, m);
    } else if op.SetPriority? {
      SetPriorityEnters(s, c, op.p, m);
    } else if op.Exit? {
      ExitingKeeps(s, c, op.k, m);
    } else {
      SleepingKeeps(s, c, op.until, m);
    }
  }

  lemma ScheduledKeeps(m: Sched, prev: Tid, s': Sched, next: Tid, initial: Tid)
    requires Coherent(m) && NoneRunning(m) && Scheduled(m, prev, s', next, initial)
    ensures Scheduler.Valid(s', next)
  {
    var x :| Picked(m, next, x) && s' == Tail(x, prev, next, initial);
    TailKeeps(m, next, x, prev, initial, s');
  }

  lemma StepKeeps(p: Point, op: Op, p': Point, initial: Tid)
    requires Good(p) && Step(p, op, p', initial)
    ensures Good(p')
  {
    match op
    case Unblock(t) => UnblockKeeps(p.s, t, p.current, p'.s);
    case Tick => InterruptKeepsValid(p.s, p.current, p'.s);
    case BecomeIdle => IdleKeeps(p, p');
    case Relock(g) => RelockKeeps(p.s, p.current, g);
    case Reprioritise(pr) => ReprioritiseKeeps(p, pr, p');
    case _ =>
      var m :| Enters(p, op, m) && Scheduled(m, p.current, p'.s, p'.current, initial);
      EntersKeeps(p, op, m);
      ScheduledKeeps(m, p.current, p'.s, p'.current, initial);
  }

  lemma ReprioritiseKeeps(p: Point, pr: map<Tid, int>, p': Point)
    requires Good(p) && p.s.mlfqs && pr.Keys == p.s.priority.Keys && p' == Point(p.s.(priority := pr), p.current)
    ensures Good(p')
  {
    assert forall u: Tid, st: Status :: HasStatus(p'.s, u, st) <==> HasStatus(p.s, u, st);
  }

  lemma IdleKeeps(p: Point, p': Point)
    requires Good(p) && p.s.idle == None && p' == Point(p.s.(idle := Some(p.current)), p.current)
    ensures Good(p')
  {
    RunningIsFree(p.s, p.current);
    assert HasStatus(p.s, p.current, Running);
    assert forall u: Tid, st: Status :: HasStatus(p'.s, u, st) <==> HasStatus(p.s, u, st);
  }

  /** thread_init's state: only the initial thread, running. */
  ghost predicate Init(p: Point, initial: Tid) {
    && p.current == initial
    && p.s.ready == [] && p.s.all == [initial] && p.s.idle == None && p.s.asleep == []
    && p.s.status == map[initial := Running] && initial in p.s.priority
    && p.s.graph == Graph(map[initial := PRI_DEFAULT], map[initial := []], map[])
  }

  lemma InitIsGood(p: Point, initial: Tid)
    requires Init(p, initial)
    ensures Good(p)
  {
    assert HasStatus(p.s, initial, Running);
    assert Isolated(p.s.graph, initial);
    IsolatedDonors(p.s.graph, initial);
  }

  ghost predicate Run(points: seq<Point>, ops: seq<Op>, initial: Tid) {
    && |points| == |ops| + 1 && Init(points[0], initial)
    && forall k :: 0 <= k < |ops| ==> Step(points[k], ops[k], points[k + 1], initial)
  }

  lemma {:induction false} RunsStayGood(points: seq<Point>, ops: seq<Op>, initial: Tid, n: nat)
    requires Run(points, ops, initial) && n < |points|
    ensures Good(points[n])
    decreases n
  {
    if n == 0 {
      InitIsGood(points[0], initial);
    } else {
      RunsStayGood(points, ops, initial, n - 1);
      StepKeeps(points[n - 1], ops[n - 1], points[n], initial);
    }
  }

  /**
   At every point of every run: exactly one thread runs; the ready list holds exactly the READY
   threads, the established idle thread excepted; sleepers and lock waiters are BLOCKED, so never on
   the ready list, and no sleeper waits for a lock; the list of all threads holds exactly the threads not dying.
   */
  lemma QueuesMatchStates(points: seq<Point>, ops: seq<Op>, initial: Tid, n: nat, t: Tid)
    requires Run(points, ops, initial) && n < |points|
    ensures
      var p := points[n];
      && (HasStatus(p.s, t, Running) <==> t == p.current)
      && (t in p.s.ready <==> HasStatus(p.s, t, Ready) && p.s.idle != Some(t))
      && (t in p.s.asleep || Waiting(p.s.graph, t) ==> HasStatus(p.s, t, Blocked) && t !in p.s.ready)
      && !(t in p.s.asleep && Waiting(p.s.graph, t))
      && (t in p.s.all <==> t in p.s.status && p.s.status[t] != Dying)
      && Distinct(p.s.ready) && Distinct(p.s.asleep) && Distinct(p.s.all)
  {
    RunsStayGood(points, ops, initial, n);
    assert Coherent(points[n].s) && OnlyRunning(points[n].s, points[n].current);
  }

  /**
   In donation mode, whenever any run goes through schedule(), the thread that comes out has at least
   the effective priority of every thread r that was ready, and of every thread w waiting, through any
   chain of locks, for such an r; and the idle thread comes out only if nothing was ready.
   */
  lemma SchedulingHonoursDonation(points: seq<Point>, ops: seq<Op>, initial: Tid, n: nat, m: Sched,
                                  r: Tid, w: Tid, p: int, q: int)
    requires Run(points, ops, initial) && n < |ops| && !m.mlfqs
    requires Enters(points[n], ops[n], m)
    requires Scheduled(m, points[n].current, points[n + 1].s, points[n + 1].current, initial)
    ensures Wf(m.graph)
    ensures m.idle == Some(points[n + 1].current) <==> m.ready == []
    ensures
      (r in m.ready && Donates(m.graph, w, r) && Effective(m.graph, w, p)
       && Effective(m.graph, points[n + 1].current, q))
      ==> p <= q
  {
    RunsStayGood(points, ops, initial, n);
    EntersKeeps(points[n], ops[n], m);
    IdleOnlyWhenNothingReady(m, points[n].current, points[n + 1].s, points[n + 1].current, initial);
    if r in m.ready && Donates(m.graph, w, r) && Effective(m.graph, w, p)
       && Effective(m.graph, points[n + 1].current, q) {
      ChosenOutranks(m, points[n].current, points[n + 1].s, points[n + 1].current, initial, r, w, p, q);
    }
  }

  /** In feedback-queue mode, whatever the priorities have been recomputed to: at every switch of every run nothing ready has a higher one. */
  lemma SchedulingHonoursPriorities(points: seq<Point>, ops: seq<Op>, initial: Tid, n: nat, m: Sched, r: Tid)
    requires Run(points, ops, initial) && n < |ops| && m.mlfqs
    requires Enters(points[n], ops[n], m)
    requires Scheduled(m, points[n].current, points[n + 1].s, points[n + 1].current, initial)
    ensures m.idle == Some(points[n + 1].current) <==> m.ready == []
    ensures r in m.ready ==> r in m.priority && points[n + 1].current in m.priority && m.priority[r] <= m.priority[points[n + 1].current]
  {
    RunsStayGood(points, ops, initial, n);
    EntersKeeps(points[n], ops[n], m);
    IdleOnlyWhenNothingReady(m, points[n].current, points[n + 1].s, points[n + 1].current, initial);
    if r in m.ready {
      ChosenIsHighest(m, points[n].current, points[n + 1].s, points[n + 1].current, initial, r);
    }
  }

  // ---------------------------------------------------------------- blocking, over whole runs

  lemma StepUnblocks(p: Point, op: Op, p': Point, initial: Tid, t: Tid)
    requires Good(p) && Step(p, op, p', initial) && p.s.idle != Some(t) && HasStatus(p.s, t, Blocked) && t !in p.s.asleep
    ensures p'.s.idle != Some(t) && t !in p'.s.asleep
    ensures if op == Unblock(t) then HasStatus(p'.s, t, Ready) else HasStatus(p'.s, t, Blocked)
  {
    hide Coherent;
    assert HasStatus(p.s, p.current, Running) && t != p.current;
    if op.Tick? {
      TickKeepsStatus(p.s, p'.s, t);
    } else if op.Unblock? || op.BecomeIdle? || op.Relock? || op.Reprioritise? {
      DirectKeepsBlocked(p, op, p', initial, t);
    } else {
      SwitchKeepsBlocked(p, op, p', initial, t);
    }
  }

  lemma DirectKeepsBlocked(p: Point, op: Op, p': Point, initial: Tid, t: Tid)
    requires Step(p, op, p', initial) && p.s.idle != Some(t) && HasStatus(p.s, t, Blocked) && t !in p.s.asleep
    requires t != p.current && (op.Unblock? || op.BecomeIdle? || op.Relock? || op.Reprioritise?)
    ensures p'.s.idle != Some(t) && t !in p'.s.asleep
    ensures if op == Unblock(t) then HasStatus(p'.s, t, Ready) else HasStatus(p'.s, t, Blocked)
  {
    hide Coherent, Wf, NoDeadlock, Waiting;
  }

  lemma SwitchKeepsBlocked(p: Point, op: Op, p': Point, initial: Tid, t: Tid)
    requires Good(p) && p.s.idle != Some(t) && HasStatus(p.s, t, Blocked) && t !in p.s.asleep && t != p.current
    requires exists m :: Enters(p, op, m) && Scheduled(m, p.current, p'.s, p'.current, initial)
    ensures p'.s.idle != Some(t) && t !in p'.s.asleep && HasStatus(p'.s, t, Blocked)
  {
    hide Good, Enters, Scheduled, HasStatus;
    var m :| Enters(p, op, m) && Scheduled(m, p.current, p'.s, p'.current, initial);
    EntersKeeps(p, op, m);
    EntersKeepsBlocked(p, op, m, t);
    ScheduledKeepsBlocked(m, p.current, p'.s, p'.current, initial, t);
  }

  /** The timer interrupt touches sleepers only. */
  lemma TickKeepsStatus(s: Sched, s': Sched, t: Tid)
    requires s' == Interrupted(s) && t !in s.asleep
    ensures s'.idle == s.idle && t !in s'.asleep && forall st: Status :: HasStatus(s', t, st) <==> HasStatus(s, t, st)
  {
    var now := s.(ticks := s.ticks + 1);
    WokenIs(now, Due(now.asleep, now.wakeup, now.ticks));
    hide Woken, Due;
  }

  lemma EntersKeepsBlocked(p: Point, op: Op, m: Sched, t: Tid)
    requires Good(p) && Enters(p, op, m) && HasStatus(p.s, t, Blocked) && t !in p.s.asleep && t != p.current
    ensures HasStatus(m, t, Blocked) && t !in m.asleep && m.idle == p.s.idle
  {
    if op.Sleep? {
      SleepsUntil(p.s, p.current, op.until);
    }
  }

  lemma ScheduledKeepsBlocked(m: Sched, prev: Tid, s': Sched, next: Tid, initial: Tid, t: Tid)
    requires Coherent(m) && NoneRunning(m) && Scheduled(m, prev, s', next, initial)
    requires HasStatus(m, t, Blocked) && m.idle != Some(t) && t !in m.asleep
    ensures HasStatus(s', t, Blocked) && s'.idle == m.idle && t !in s'.asleep
  {
    if next == t {
      BlockedIsNotChosen(m, prev, s', next, initial);
    }
    ScheduledForgets(m, prev, s', next, initial);
    hide Coherent, NoneRunning, Scheduled;
    ScheduledKeepsSleepers(m, prev, s', next, initial);
  }

  lemma BlockedIsNotChosen(m: Sched, prev: Tid, s': Sched, next: Tid, initial: Tid)
    requires Coherent(m) && Scheduled(m, prev, s', next, initial) && m.idle != Some(next)
    ensures !HasStatus(m, next, Blocked)
  {
    hide NotAbove, AsleepOk, GraphOk, AllOk, Tail;
    var x :| Picked(m, next, x) && s' == Tail(x, prev, next, initial);
    assert next in m.ready ==> HasStatus(m, next, Ready);
  }

  lemma BlockBegins(p: Point, op: Op, p': Point, initial: Tid)
    requires Good(p) && Step(p, op, p', initial) && op.Block? && p.s.idle != Some(p.current)
    ensures p'.s.idle != Some(p.current) && HasStatus(p'.s, p.current, Blocked) && p.current !in p'.s.asleep
  {
    RunningIsFree(p.s, p.current);
    var m :| Enters(p, op, m) && Scheduled(m, p.current, p'.s, p'.current, initial);
    EntersKeeps(p, op, m);
    assert HasStatus(m, p.current, Blocked);
    hide Enters, Coherent;
    ScheduledKeepsBlocked(m, p.current, p'.s, p'.current, initial, p.current);
  }

  /**
   Over every run: a thread other than the idle thread that blocks with operation i stays BLOCKED, whatever
   else happens, up to the first thread_unblock of it, which makes it READY.
   */
  lemma {:induction false} BlockedUntilUnblocked(points: seq<Point>, ops: seq<Op>, initial: Tid, i: nat, j: nat)
    requires Run(points, ops, initial) && i < j < |points| && ops[i].Block? && points[i].s.idle != Some(points[i].current)
    requires forall k :: i < k < j - 1 ==> ops[k] != Unblock(points[i].current)
    ensures
      var t, s := points[i].current, points[j].s;
      && s.idle != Some(t) && t !in s.asleep
      && if i < j - 1 && ops[j - 1] == Unblock(t) then HasStatus(s, t, Ready) else HasStatus(s, t, Blocked)
    decreases j
  {
    hide Step, Scheduler.Valid;
    if j == i + 1 {
      RunsStayGood(points, ops, initial, i);
      BlockBegins(points[i], ops[i], points[i + 1], initial);
    } else {
      BlockedUntilUnblocked(points, ops, initial, i, j - 1);
      RunsStayGood(points, ops, initial, j - 1);
      StepUnblocks(points[j - 1], ops[j - 1], points[j], initial, points[i].current);
    }
  }

  /** In every state of every run, no thread but the initial one is dying: the switch away from a dying thread frees it. */
  lemma {:induction false} NoneDying(points: seq<Point>, ops: seq<Op>, initial: Tid, n: nat, t: Tid)
    requires Run(points, ops, initial) && n < |points| && HasStatus(points[n].s, t, Dying)
    ensures t == initial
    decreases n
  {
    if n > 0 && t != initial {
      RunsStayGood(points, ops, initial, n - 1);
      StepFrees(points[n - 1], ops[n - 1], points[n], initial, t);
      NoneDying(points, ops, initial, n - 1, t);
    }
  }

  lemma StepFrees(p: Point, op: Op, p': Point, initial: Tid, t: Tid)
    requires Good(p) && Step(p, op, p', initial) && HasStatus(p'.s, t, Dying) && t != initial
    ensures HasStatus(p.s, t, Dying)
  {
    if op.Tick? {
      hide Coherent;
      TickKeepsDying(p.s, p'.s, t);
    } else if op.Unblock? || op.BecomeIdle? || op.Relock? || op.Reprioritise? {
      hide Coherent;
    } else {
      hide Coherent, Enters, Scheduled;
      var m :| Enters(p, op, m) && Scheduled(m, p.current, p'.s, p'.current, initial);
      EntersKeeps(p, op, m);
      ScheduledForgets(m, p.current, p'.s, p'.current, initial);
      EntersDying(p, op, m, t);
    }
  }

  lemma EntersDying(p: Point, op: Op, m: Sched, t: Tid)
    requires Enters(p, op, m) && HasStatus(m, t, Dying) && t != p.current
    ensures HasStatus(p.s, t, Dying)
  {
  }

  lemma TickKeepsDying(s: Sched, s': Sched, t: Tid)
    requires s' == Interrupted(s) && HasStatus(s', t, Dying)
    ensures HasStatus(s, t, Dying)
  {
    var now := s.(ticks := s.ticks + 1);
    WokenIs(now, Due(now.asleep, now.wakeup, now.ticks));
    hide Woken, Due;
    assert now.asleep == s.asleep;
    assert forall u :: u in now.asleep[..Due(now.asleep, now.wakeup, now.ticks)] ==> u in now.asleep;
  }

  // ---------------------------------------------------------------- sleeping, over whole runs

  /** What thread t's sleep depends on is the same in s and s'. */
  ghost predicate SleepKept(s: Sched, s': Sched, t: Tid) {
    t in s'.asleep && t in s.wakeup && t in s'.wakeup && s'.wakeup[t] == s.wakeup[t] && s'.ticks == s.ticks
  }

  lemma EntersKeepsSleep(p: Point, op: Op, m: Sched, t: Tid)
    requires Good(p) && Enters(p, op, m) && t in p.s.asleep
    ensures SleepKept(p.s, m, t)
  {
    RunningIsFree(p.s, p.current);
    assert HasStatus(p.s, t, Blocked);
    if op.Sleep? {
      InsertKeepsOrder(p.s, p.current, op.until);
    }
  }

  lemma ScheduledKeepsSleep(m: Sched, prev: Tid, s': Sched, next: Tid, initial: Tid, s: Sched, t: Tid)
    requires SleepKept(s, m, t) && Scheduled(m, prev, s', next, initial)
    ensures SleepKept(s, s', t)
  {
  }

  lemma DirectKeepsSleep(p: Point, op: Op, p': Point, initial: Tid, t: Tid)
    requires AsleepOk(p.s) && Step(p, op, p', initial) && t in p.s.asleep && (op.Unblock? || op.BecomeIdle? || op.Relock? || op.Reprioritise?)
    ensures SleepKept(p.s, p'.s, t)
  {
  }

  lemma OthersKeepSleep(p: Point, op: Op, p': Point, initial: Tid, t: Tid)
    requires Good(p) && Step(p, op, p', initial) && t in p.s.asleep && !op.Tick?
    ensures SleepKept(p.s, p'.s, t)
  {
    if op.Unblock? || op.BecomeIdle? || op.Relock? || op.Reprioritise? {
      hide Step;
      DirectKeepsSleep(p, op, p', initial, t);
    } else {
      hide Coherent, SleepKept, Enters, Scheduled;
      var m :| Enters(p, op, m) && Scheduled(m, p.current, p'.s, p'.current, initial);
      EntersKeepsSleep(p, op, m, t);
      ScheduledKeepsSleep(m, p.current, p'.s, p'.current, initial, p.s, t);
    }
  }

  /** Only a timer interrupt that reaches its deadline takes a sleeper off the list. */
  lemma StepWakes(p: Point, op: Op, p': Point, initial: Tid, t: Tid)
    requires Good(p) && Step(p, op, p', initial) && t in p.s.asleep
    ensures t in p.s.wakeup
    ensures t in p'.s.asleep <==> !(op.Tick? && p.s.wakeup[t] <= p'.s.ticks)
    ensures t in p'.s.asleep ==> t in p'.s.wakeup && p'.s.wakeup[t] == p.s.wakeup[t]
    ensures t !in p'.s.asleep ==> HasStatus(p'.s, t, Ready) && t in p'.s.ready
    ensures p'.s.ticks == p.s.ticks + if op.Tick? then 1 else 0
  {
    if op.Tick? {
      hide Interrupted;
      InterruptWakesDue(p.s, p'.s);
      if t !in p'.s.asleep {
        WokenIsReady(p.s, p'.s, t);
      }
    } else {
      hide Step, Scheduler.Valid;
      OthersKeepSleep(p, op, p', initial, t);
    }
  }

  lemma WokenIsReady(s: Sched, r: Sched, t: Tid)
    requires AsleepOk(s) && r == Interrupted(s) && t in s.asleep && t !in r.asleep
    ensures HasStatus(r, t, Ready) && t in r.ready
  {
    var now := s.(ticks := s.ticks + 1);
    hide AsleepOk;
    FirstAreReady(now, Due(now.asleep, now.wakeup, now.ticks), r, t);
  }

  lemma FirstAreReady(s: Sched, n: nat, r: Sched, t: Tid)
    requires n <= |s.asleep| && r == Woken(s, n) && t in s.asleep && t !in r.asleep
    ensures HasStatus(r, t, Ready) && t in r.ready
  {
    WokenIs(s, n);
    hide Woken;
    assert s.asleep == s.asleep[..n] + s.asleep[n..];
  }

  /** The timer interrupt that is operation k reaches deadline d. */
  predicate Reached(points: seq<Point>, ops: seq<Op>, k: nat, d: int)
    requires k < |ops| && |points| == |ops| + 1
  {
    ops[k].Tick? && d <= points[k + 1].s.ticks
  }

  /**
   Over every run, whatever else happens meanwhile: a thread found asleep stays on the sleep list with its
   deadline unchanged up to the first timer interrupt that reaches it, and that interrupt makes it READY.
   */
  lemma {:induction false} SleepersWakeOnTime(points: seq<Point>, ops: seq<Op>, initial: Tid, i: nat, j: nat, t: Tid)
    requires Run(points, ops, initial) && i < j < |points| && t in points[i].s.asleep
    requires t in points[i].s.wakeup ==> forall k :: i <= k < j - 1 ==> !Reached(points, ops, k, points[i].s.wakeup[t])
    ensures t in points[i].s.wakeup
    ensures t in points[j].s.asleep <==> !Reached(points, ops, j - 1, points[i].s.wakeup[t])
    ensures t in points[j].s.asleep ==> t in points[j].s.wakeup && points[j].s.wakeup[t] == points[i].s.wakeup[t]
    ensures t !in points[j].s.asleep ==> HasStatus(points[j].s, t, Ready) && t in points[j].s.ready
    decreases j
  {
    hide Step, Scheduler.Valid;
    RunsStayGood(points, ops, initial, i);
    StepWakes(points[i], ops[i], points[i + 1], initial, t);
    if j > i + 1 {
      SleepersWakeOnTime(points, ops, initial, i, j - 1, t);
      RunsStayGood(points, ops, initial, j - 1);
      StepWakes(points[j - 1], ops[j - 1], points[j], initial, t);
    }
  }

  /** timer_sleep puts the running thread on the list with the deadline it is given. */
  lemma SleepBegins(p: Point, op: Op, p': Point, initial: Tid)
    requires Good(p) && Step(p, op, p', initial) && op.Sleep?
    ensures p.current in p'.s.asleep && p.current in p'.s.wakeup && p'.s.wakeup[p.current] == op.until
  {
    hide Coherent, Sleeping, Scheduled;
    var m :| Enters(p, op, m) && Scheduled(m, p.current, p'.s, p'.current, initial);
    SleepsUntil(p.s, p.current, op.until);
    ScheduledKeepsSleepers(m, p.current, p'.s, p'.current, initial);
  }

  /**
   Over every run, whatever else happens meanwhile: the thread that goes to sleep until d with operation i
   is asleep up to the first later timer interrupt that takes the clock to d or beyond, and that one makes it READY.
   */
  lemma SleepLastsUntil(points: seq<Point>, ops: seq<Op>, initial: Tid, i: nat, j: nat, d: int)
    requires Run(points, ops, initial) && i < j < |points| && ops[i] == Sleep(d)
    requires forall k :: i < k < j - 1 && ops[k].Tick? ==> points[k + 1].s.ticks < d
    ensures points[i].current in points[j].s.asleep <==> !(i < j - 1 && ops[j - 1].Tick? && d <= points[j].s.ticks)
    ensures points[i].current !in points[j].s.asleep ==> HasStatus(points[j].s, points[i].current, Ready)
  {
    hide Step, Scheduler.Valid;
    RunsStayGood(points, ops, initial, i);
    SleepBegins(points[i], ops[i], points[i + 1], initial);
    if i < j - 1 {
      SleepersWakeOnTime(points, ops, initial, i + 1, j, points[i].current);
    }
  }

  /** For a deadline in the future: asleep exactly while the clock has not reached it. */
  lemma AsleepUntilDeadline(points: seq<Point>, ops: seq<Op>, initial: Tid, i: nat, j: nat, t: Tid)
    requires Run(points, ops, initial) && i < j < |points| && t in points[i].s.asleep && t in points[i].s.wakeup
    requires forall k :: i <= k < j ==> points[k].s.ticks < points[i].s.wakeup[t]
    ensures t in points[j].s.asleep <==> points[j].s.ticks < points[i].s.wakeup[t]
    ensures t in points[j].s.asleep ==> t in points[j].s.wakeup && points[j].s.wakeup[t] == points[i].s.wakeup[t]
    ensures t !in points[j].s.asleep ==> points[j].s.ticks == points[i].s.wakeup[t] && HasStatus(points[j].s, t, Ready)
  {
    hide Step, Scheduler.Valid;
    forall k | i <= k < j - 1 ensures !Reached(points, ops, k, points[i].s.wakeup[t]) {
      assert points[k + 1].s.ticks < points[i].s.wakeup[t];
    }
    SleepersWakeOnTime(points, ops, initial, i, j, t);
    RunsStayGood(points, ops, initial, j - 1);
    if j > i + 1 {
      SleepersWakeOnTime(points, ops, initial, i, j - 1, t);
    }
    StepWakes(points[j - 1], ops[j - 1], points[j], initial, t);
  }
}
