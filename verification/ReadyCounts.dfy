/**
 The number update_load_avg (priority-scheduler/threads/thread.c) feeds to the load average is taken
 from the ready list and the running thread; over every run it is the number of threads that can run.
 */
module ReadyCounts {
  import opened Machine
  import opened Donation
  import opened Scheduler
  import opened ThreadRuns
  import Mlfqs

  /** The threads, other than the idle thread, that run or could run. */
  ghost function Runnable(s: Sched): set<Tid> {
    set t | t in s.status && s.status[t] in {Running, Ready} && s.idle != Some(t)
  }

  ghost function Members(xs: seq<Tid>): set<Tid> { set t | t in xs }

  lemma {:induction false} DistinctCount(xs: seq<Tid>)
    requires Distinct(xs)
    ensures |Members(xs)| == |xs|
    decreases |xs|
  {
    if xs != [] {
      var init, last := xs[..|xs| - 1], xs[|xs| - 1];
      DistinctCount(init);
      assert xs == init + [last];
      assert Members(xs) == Members(init) + {last};
    } else {
      assert Members(xs) == {};
    }
  }

  /** In every state of every run update_load_avg counts exactly the threads that can run. */
  lemma CountIsRunnable(points: seq<Point>, ops: seq<Op>, initial: Tid, n: nat)
    requires Run(points, ops, initial) && n < |points|
    ensures
      var s, current := points[n].s, points[n].current;
      Mlfqs.ReadyThreads(|s.ready|, s.idle == Some(current)) == |Runnable(s)|
  {
    RunsStayGood(points, ops, initial, n);
    var s, current := points[n].s, points[n].current;
    DistinctCount(s.ready);
    RunnableIs(s, current);
    assert current !in Members(s.ready) by {
      RunningIsFree(s, current);
    }
  }

  lemma RunnableIs(s: Sched, current: Tid)
    requires Scheduler.Valid(s, current)
    ensures Runnable(s) == Members(s.ready) + (if s.idle == Some(current) then {} else {current})
  {
    forall t ensures t in Runnable(s) <==> t in s.ready || (t == current && s.idle != Some(current)) {
      assert t in s.status && s.status[t] == Running <==> HasStatus(s, t, Running);
      assert t in s.status && s.status[t] == Ready <==> HasStatus(s, t, Ready);
      assert HasStatus(s, t, Running) <==> t == current;
      assert t in s.ready <==> HasStatus(s, t, Ready) && s.idle != Some(t);
    }
  }
}
