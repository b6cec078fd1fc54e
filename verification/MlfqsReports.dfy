/**
 What thread_get_load_avg and thread_get_recent_cpu report over whole runs. Both multiply by 100 in 32
 bits; this module finds the largest number of runnable threads for which that never overflows, and runs
 with one thread more on which it does.
 */
module MlfqsReports {
  import opened Machine
  import opened FixedPoint
  import opened Mlfqs

  /** The largest value whose hundredfold, rounded, fits 32 bits. */
  const LARGEST := 21474754

  ghost predicate ReportedRight(x: int) { IsNearest(Hundredfold(x), 100 * x) }

  lemma ReportedRightIff(x: int)
    requires In32(x)
    ensures ReportedRight(x) <==> -LARGEST <= x <= LARGEST
  {
    HundredfoldIff(x);
  }

  // ---------------------------------------------------------------- runs that are reported right

  lemma {:induction false} LoadStaysSmall(states: seq<MState>, ops: seq<Op>, n: nat, k: nat)
    requires Run(states, ops, n) && n <= 1315 && k < |states|
    ensures 0 <= states[k].loadAvg <= LARGEST
    decreases k
  {
    if k > 0 {
      LoadStaysSmall(states, ops, n, k - 1);
      RunsStayBounded(states, ops, n, k - 1);
      assert Step(states[k - 1], ops[k - 1], states[k], n);
      if ops[k - 1].Tick? {
        LoadStepExact(states[k - 1].loadAvg, ops[k - 1].readyThreads, n);
      }
    }
  }

  // ---------------------------------------------------------------- building runs

  /** No tick counts more threads than there are. */
  ghost predicate Possible(states: seq<MState>, ops: seq<Op>)
    requires |states| == |ops| + 1
  {
    forall k :: 0 <= k < |ops| && ops[k].Tick? ==> ops[k].readyThreads <= |states[k].threads|
  }

  ghost predicate Reached(s: MState, n: nat) {
    exists states: seq<MState>, ops: seq<Op> :: Run(states, ops, n) && Possible(states, ops) && states[|ops|] == s
  }

  lemma ReachedStep(s: MState, op: Op, s': MState, n: nat)
    requires Reached(s, n) && Step(s, op, s', n) && (op.Tick? ==> op.readyThreads <= |s.threads|)
    ensures Reached(s', n)
  {
    hide Step;
    var states, ops :| Run(states, ops, n) && Possible(states, ops) && states[|ops|] == s;
    var states', ops' := states + [s'], ops + [op];
    assert Run(states', ops', n) && Possible(states', ops') by {
      forall k | 0 <= k < |ops'| ensures Step(states'[k], ops'[k], states'[k + 1], n) {
        assert k < |ops| ==> Step(states[k], ops[k], states[k + 1], n);
      }
    }
    assert states'[|ops'|] == s';
  }

  lemma ReachedBounded(s: MState, n: nat)
    requires Reached(s, n) && n <= 3275
    ensures 0 <= s.loadAvg <= n * ONE && 0 <= s.ticks
    ensures forall i :: 0 <= i < |s.threads| ==> ThreadOk(s.threads[i], s.ticks, n)
  {
    var states, ops :| Run(states, ops, n) && Possible(states, ops) && states[|ops|] == s;
    RunsStayBounded(states, ops, n, |ops|);
  }

  /** A run counting at most n threads counts at most m >= n. */
  lemma ReachedMore(s: MState, n: nat, m: nat) returns (states: seq<MState>, ops: seq<Op>)
    requires Reached(s, n) && n <= m
    ensures Run(states, ops, m) && Possible(states, ops) && states[|ops|] == s
  {
    states, ops :| Run(states, ops, n) && Possible(states, ops) && states[|ops|] == s;
    forall k | 0 <= k < |ops| ensures Step(states[k], ops[k], states[k + 1], m) {
      assert Step(states[k], ops[k], states[k + 1], n);
    }
  }

  lemma {:induction false} Populated(n: nat, m: nat) returns (s: MState)
    requires m > 0
    ensures Reached(s, n) && s.ticks == 0 && s.loadAvg == 0 && |s.threads| == m
    ensures s.threads[0].recentCpu == 0 && s.threads[0].nice == 0
    decreases m
  {
    hide NewPriority;
    if m == 1 {
      s := MState(0, 0, [Reprioritised(MThread(0, 0, 0))]);
      var none: seq<Op> := [];
      assert Run([s], none, n) && Possible([s], none) && [s][|none|] == s;
    } else {
      var t := Populated(n, m - 1);
      s := t.(threads := t.threads + [Child(t.threads[0])]);
      ReachedStep(t, Op.Create(0), s, n);
    }
  }

  /** One tick with r threads counted; thread 1 runs. */
  lemma OneTick(s: MState, r: nat, n: nat) returns (s': MState)
    requires Reached(s, n) && n <= 3275 && r <= n && r <= |s.threads| && |s.threads| >= 2
    ensures Reached(s', n) && s'.ticks == s.ticks + 1 && s'.loadAvg == TickLoad(s, r) && |s'.threads| == |s.threads|
    ensures 0 <= s'.loadAvg <= n * ONE && AddInt(MulInt(s'.loadAvg, 2), 1) > 0
    ensures s'.threads[0] == TickThread(s.threads[0], false, s'.ticks, s'.loadAvg)
  {
    ReachedBounded(s, n);
    LoadStepExact(s.loadAvg, r, n);
    var load := TickLoad(s, r);
    DecayIsDefined(load, n);
    var threads := seq(|s.threads|, i requires 0 <= i < |s.threads| => TickThread(s.threads[i], i == 1, s.ticks + 1, load));
    s' := MState(s.ticks + 1, load, threads);
    hide TickThread, TickLoad;
    assert Ticked(s, 1, r, s');
    ReachedStep(s, Op.Tick(1, r), s', n);
  }

  /** Ticks before the next full second. */
  lemma {:induction false} SomeTicks(s: MState, r: nat, n: nat, k: nat) returns (s': MState)
    requires Reached(s, n) && n <= 3275 && r <= n && r <= |s.threads| && |s.threads| >= 2
    requires s.ticks % TIMER_FREQ == 0 && k < TIMER_FREQ
    ensures Reached(s', n) && s'.ticks == s.ticks + k && s'.loadAvg == s.loadAvg && |s'.threads| == |s.threads|
    ensures s'.threads[0].recentCpu == s.threads[0].recentCpu && s'.threads[0].nice == s.threads[0].nice
    decreases k
  {
    hide Reached, TickThread, NewLoadAvg, AddInt, MulInt;
    if k == 0 {
      s' := s;
    } else {
      var t := SomeTicks(s, r, n, k - 1);
      s' := OneTick(t, r, n);
      NotYet(s.ticks, k);
      QuietTick(t.threads[0], s'.ticks, s'.loadAvg);
    }
  }

  lemma NotYet(ticks: int, k: nat)
    requires ticks % TIMER_FREQ == 0 && 0 < k < TIMER_FREQ
    ensures (ticks + k) % TIMER_FREQ != 0
  {
  }

  /** A tick without decay leaves the fields of a thread that does not run alone. */
  lemma QuietTick(t: MThread, ticks: int, loadAvg: int)
    requires ticks % TIMER_FREQ != 0
    ensures TickThread(t, false, ticks, loadAvg) == t.(priority := TickThread(t, false, ticks, loadAvg).priority)
  {
    hide NewPriority;
  }

  /** A full second in which every update counts r threads. */
  lemma Second(s: MState, r: nat, n: nat) returns (s': MState)
    requires Reached(s, n) && n <= 3275 && r <= n && r <= |s.threads| && |s.threads| >= 2 && s.ticks % TIMER_FREQ == 0
    ensures Reached(s', n) && s'.ticks % TIMER_FREQ == 0 && |s'.threads| == |s.threads|
    ensures s'.loadAvg == NewLoadAvg(s.loadAvg, r) && 0 <= s'.loadAvg <= n * ONE
    ensures AddInt(MulInt(s'.loadAvg, 2), 1) > 0
    ensures s'.threads[0].recentCpu == NewRecentCpu(s'.loadAvg, s.threads[0]) && s'.threads[0].nice == s.threads[0].nice
  {
    hide Reached, NewPriority, NewLoadAvg, Decay;
    var t := SomeTicks(s, r, n, TIMER_FREQ - 1);
    s' := OneTick(t, r, n);
    SameNewCpu(s'.loadAvg, t.threads[0], s.threads[0]);
  }

  lemma SameNewCpu(loadAvg: int, t: MThread, u: MThread)
    requires AddInt(MulInt(loadAvg, 2), 1) > 0 && t.recentCpu == u.recentCpu && t.nice == u.nice
    ensures NewRecentCpu(loadAvg, t) == NewRecentCpu(loadAvg, u)
  {
  }

  /** Below goal, an update that counts r threads raises the load average. */
  ghost predicate Raises(r: nat, n: nat, goal: int) {
    forall l :: 0 <= l < goal && l <= n * ONE ==> NewLoadAvg(l, r) > l
  }

  lemma {:induction false} LoadRises(s: MState, r: nat, n: nat, goal: int) returns (s': MState)
    requires Reached(s, n) && n <= 3275 && r <= n && r <= |s.threads| && |s.threads| >= 2 && s.ticks % TIMER_FREQ == 0
    requires Raises(r, n, goal) && s.threads[0].nice == 0 && s.threads[0].recentCpu == 0
    ensures Reached(s', n) && s'.ticks % TIMER_FREQ == 0 && |s'.threads| == |s.threads| && s'.loadAvg >= goal
    ensures s'.threads[0].nice == 0 && s'.threads[0].recentCpu == 0
    decreases goal - s.loadAvg
  {
    ReachedBounded(s, n);
    hide Reached, NewLoadAvg;
    if s.loadAvg >= goal {
      s' := s;
    } else {
      var t := Second(s, r, n);
      RecentCpuStep(t.loadAvg, s.threads[0], n);
      s' := LoadRises(t, r, n, goal);
    }
  }

  // ---------------------------------------------------------------- the load average

  lemma Raises1316(n: nat)
    requires 1316 <= n <= 3275
    ensures Raises(1316, n, LARGEST + 1)
  {
    forall l | 0 <= l < LARGEST + 1 && l <= n * ONE ensures NewLoadAvg(l, 1316) > l {
      LoadStepExact(l, 1316, n);
    }
  }

  /** With 1316 runnable threads throughout, the load average grows until it is misreported. */
  lemma LoadMisreported(n: nat) returns (states: seq<MState>, ops: seq<Op>)
    requires n >= 1316
    ensures Run(states, ops, n) && Possible(states, ops) && !ReportedRight(states[|ops|].loadAvg)
  {
    var s := Populated(1316, 1316);
    Raises1316(1316);
    var s' := LoadRises(s, 1316, 1316, LARGEST + 1);
    ReachedBounded(s', 1316);
    ReportedRightIff(s'.loadAvg);
    states, ops := ReachedMore(s', 1316, n);
  }

  /** Every load average of every run with at most n runnable threads is reported right exactly up to n = 1315. */
  lemma LoadReportedIff(n: nat)
    ensures (forall states: seq<MState>, ops: seq<Op>, k: nat :: Run(states, ops, n) && k < |states| ==>
               ReportedRight(states[k].loadAvg))
            <==> n <= 1315
  {
    if n <= 1315 {
      forall states: seq<MState>, ops: seq<Op>, k: nat | Run(states, ops, n) && k < |states|
        ensures ReportedRight(states[k].loadAvg)
      {
        LoadStaysSmall(states, ops, n, k);
        ReportedRightIff(states[k].loadAvg);
      }
    } else {
      var states, ops := LoadMisreported(n);
    }
  }

  // ---------------------------------------------------------------- recent CPU time

  /** A load average that 33 runnable threads reach, and from which the decay is slow enough. */
  const ENOUGH := 530842

  lemma Raises33()
    ensures Raises(33, 33, ENOUGH)
    ensures forall l :: ENOUGH <= l <= 33 * ONE ==> NewLoadAvg(l, 33) >= ENOUGH
  {
    forall l | 0 <= l < ENOUGH && l <= 33 * ONE ensures NewLoadAvg(l, 33) > l {
      LoadStepExact(l, 33, 33);
    }
    forall l | ENOUGH <= l <= 33 * ONE ensures NewLoadAvg(l, 33) >= ENOUGH {
      LoadStepExact(l, 33, 33);
    }
  }

  /** The decay factor is the quotient, truncated. */
  lemma DecayIs(loadAvg: int)
    requires 0 <= loadAvg <= 33 * ONE
    ensures AddInt(MulInt(loadAvg, 2), 1) > 0
    ensures Decay(loadAvg) == 2 * loadAvg * ONE / (2 * loadAvg + ONE)
  {
    var x := 2 * loadAvg;
    var c := x * ONE / (x + ONE);
    DivBelow(x * ONE, x + ONE);
    DecayAlgebra(c, x, 33);
    assert MulInt(loadAvg, 2) == x && AddInt(x, 1) == x + ONE;
    assert Div(x, x + ONE) == c;
  }

  lemma SlowDecay(loadAvg: int)
    requires ENOUGH <= loadAvg <= 33 * ONE
    ensures AddInt(MulInt(loadAvg, 2), 1) > 0 && ONE - 249 <= Decay(loadAvg) < ONE
  {
    DecayBound(loadAvg, 33);
    DecayIs(loadAvg);
    hide Decay;
    var x := 2 * loadAvg;
    assert (ONE - 249) * (x + ONE) <= x * ONE;
    QuotientAtLeast(x * ONE, x + ONE, ONE - 249);
  }

  lemma QuotientAtLeast(a: int, b: int, q: int)
    requires a >= 0 && b > 0 && q * b <= a
    ensures a / b >= q
  {
    assert (a / b + 1) * b == a / b * b + b > a;
    if a / b < q {
      MulOrder(a / b + 1, q, b);
    }
  }

  /** Such a load lets a thread of nice 20 gain CPU time every second. */
  lemma CpuGrows(loadAvg: int, t: MThread)
    requires ENOUGH <= loadAvg <= 33 * ONE && t.nice == 20 && 0 <= t.recentCpu <= LARGEST
    ensures AddInt(MulInt(loadAvg, 2), 1) > 0 && NewRecentCpu(loadAvg, t) > t.recentCpu
  {
    SlowDecay(loadAvg);
    RecentCpuStep(loadAvg, t, 33);
    var c := Decay(loadAvg);
    MulOrder(ONE - 249, c, t.recentCpu);
    hide Decay, NewRecentCpu;
    assert t.recentCpu * (ONE - 249) <= c * t.recentCpu;
    assert Quot(c * t.recentCpu, ONE) == c * t.recentCpu / ONE;
  }

  lemma {:induction false} CpuRises(s: MState) returns (s': MState)
    requires Reached(s, 33) && |s.threads| == 33 && s.ticks % TIMER_FREQ == 0 && s.loadAvg >= ENOUGH
    requires s.threads[0].nice == 20 && 0 <= s.threads[0].recentCpu
    ensures Reached(s', 33) && |s'.threads| == 33 && s'.threads[0].recentCpu > LARGEST
    decreases LARGEST - s.threads[0].recentCpu
  {
    ReachedBounded(s, 33);
    if s.threads[0].recentCpu > LARGEST {
      s' := s;
    } else {
      Raises33();
      var t := Second(s, 33, 33);
      CpuGrows(t.loadAvg, s.threads[0]);
      s' := CpuRises(t);
    }
  }

  /** With 33 runnable threads throughout, the recent_cpu of one of nice 20 grows until it is misreported. */
  lemma CpuMisreported(n: nat) returns (states: seq<MState>, ops: seq<Op>)
    requires n >= 33
    ensures Run(states, ops, n) && Possible(states, ops) && states[|ops|].threads != []
    ensures !ReportedRight(states[|ops|].threads[0].recentCpu)
  {
    hide NewPriority;
    var s := Populated(33, 33);
    Raises33();
    s := LoadRises(s, 33, 33, ENOUGH);
    var nicer := s.(threads := s.threads[0 := Reprioritised(s.threads[0].(nice := 20))]);
    ReachedStep(s, Op.SetNice(0, 20), nicer, 33);
    var s' := CpuRises(nicer);
    ReachedBounded(s', 33);
    CpuFits(33);
    ReportedRightIff(s'.threads[0].recentCpu);
    states, ops := ReachedMore(s', 33, n);
  }

  /** Every recent_cpu of every run with at most n runnable threads is reported right exactly up to n = 32. */
  lemma CpuReportedIff(n: nat)
    ensures (forall states: seq<MState>, ops: seq<Op>, k: nat, i: nat ::
               Run(states, ops, n) && k < |states| && i < |states[k].threads| ==>
                 ReportedRight(states[k].threads[i].recentCpu))
            <==> n <= 32
  {
    if n <= 32 {
      forall states: seq<MState>, ops: seq<Op>, k: nat, i: nat | Run(states, ops, n) && k < |states| && i < |states[k].threads|
        ensures ReportedRight(states[k].threads[i].recentCpu)
      {
        RunsAreAccurate(states, ops, n, k, i);
        ReportedRightIff(states[k].threads[i].recentCpu);
      }
    } else {
      var states, ops := CpuMisreported(n);
    }
  }
}
