/**
 The multi-level feedback queue arithmetic of priority-scheduler/threads/thread.c, run for ever: load
 average, recent CPU time and priorities, in fixed point as coded. A tick adds one raw unit, 1/16384,
 to recent_cpu (thread.c:240), not 1.0.
 */
module Mlfqs {
  import opened Machine
  import opened FixedPoint

  const PRI_MIN := 0
  const PRI_MAX := 63
  const NICE_MIN := -20
  const NICE_MAX := 20
  const TIMER_FREQ := 100

  datatype MThread = MThread(nice: int, recentCpu: int, priority: int)

  datatype MState = MState(ticks: int, loadAvg: int, threads: seq<MThread>)

  /** update_load_avg. */
  function NewLoadAvg(loadAvg: int, readyThreads: int): int {
    Add(Mul(IntDivInt(59, 60), loadAvg), IntDivInt(readyThreads, 60))
  }

  /** The decay of recent_cpu; C divides by a number that is positive when the load average is not negative. */
  function Decay(loadAvg: int): int
    requires AddInt(MulInt(loadAvg, 2), 1) > 0
  {
    Reformat(Div(MulInt(loadAvg, 2), AddInt(MulInt(loadAvg, 2), 1)))
  }

  /** update_recent_cpu. */
  function NewRecentCpu(loadAvg: int, t: MThread): int
    requires AddInt(MulInt(loadAvg, 2), 1) > 0
  {
    AddInt(Mul(Decay(loadAvg), t.recentCpu), t.nice)
  }

  /** update_priority. */
  function NewPriority(t: MThread): int {
    var priority := Trunc(SubInt(IntSub(PRI_MAX, DivInt(t.recentCpu, 4)), t.nice * 2));
    if priority < PRI_MIN then PRI_MIN else if priority > PRI_MAX then PRI_MAX else priority
  }

  function Reprioritised(t: MThread): MThread { t.(priority := NewPriority(t)) }

  function Decayed(loadAvg: int, t: MThread): MThread
    requires AddInt(MulInt(loadAvg, 2), 1) > 0
  {
    t.(recentCpu := NewRecentCpu(loadAvg, t))
  }

  function Charged(t: MThread): MThread { t.(recentCpu := Wrap32(t.recentCpu + 1)) }

  /** The threads' part of a tick for one thread. */
  function TickThread(t: MThread, runs: bool, ticks: int, loadAvg: int): MThread
    requires ticks % TIMER_FREQ == 0 ==> AddInt(MulInt(loadAvg, 2), 1) > 0
  {
    var a := if runs then Charged(t) else t;
    var b := if ticks % TIMER_FREQ == 0 then Decayed(loadAvg, a) else a;
    if ticks % 4 == 0 then Reprioritised(b) else b
  }

  function TickLoad(s: MState, readyThreads: int): int {
    if (s.ticks + 1) % TIMER_FREQ == 0 then NewLoadAvg(s.loadAvg, readyThreads) else s.loadAvg
  }

  /** The whole of a timer tick in this mode, with the running thread at index running of the list of all threads. */
  ghost predicate Ticked(s: MState, running: nat, readyThreads: int, s': MState) {
    && running < |s.threads|
    && s'.ticks == s.ticks + 1 && s'.loadAvg == TickLoad(s, readyThreads)
    && (s'.ticks % TIMER_FREQ == 0 ==> AddInt(MulInt(s'.loadAvg, 2), 1) > 0)
    && |s'.threads| == |s.threads|
    && forall i :: 0 <= i < |s.threads| ==>
         s'.threads[i] == TickThread(s.threads[i], i == running, s'.ticks, s'.loadAvg)
  }

  // ---------------------------------------------------------------- the load average

  /** The recurrence the load average approximates, in real numbers. */
  function ExactLoad(load: real, readyThreads: int): real {
    59.0 / 60.0 * load + readyThreads as real / 60.0
  }

  /** After any updates, the fixed-point value is below the exact one, by at most (56 N + 120) / 16384. */
  ghost predicate LoadOk(loadAvg: int, exact: real, n: nat) {
    && 0 <= loadAvg <= n * ONE
    && loadAvg as real <= exact * ONE as real
    && exact * ONE as real <= loadAvg as real + (56 * n + 120) as real
  }

  lemma LoadStepExact(loadAvg: int, readyThreads: int, n: nat)
    requires 0 <= loadAvg <= n * ONE && 0 <= readyThreads <= n <= 3275
    ensures NewLoadAvg(loadAvg, readyThreads) == 16110 * loadAvg / ONE + readyThreads * ONE / 60
    ensures 0 <= NewLoadAvg(loadAvg, readyThreads) <= n * ONE
  {
    assert IntDivInt(59, 60) == 16110;
    var a, b := 16110 * loadAvg / ONE, readyThreads * ONE / 60;
    assert 0 <= a <= 16110 * n;
    assert 60 * b <= n * ONE;
    assert 60 * (a + b) <= 60 * 16110 * n + ONE * n <= 60 * ONE * n;
    assert Mul(16110, loadAvg) == a;
  }

  lemma LoadStep(loadAvg: int, exact: real, readyThreads: int, n: nat)
    requires LoadOk(loadAvg, exact, n) && 0 <= readyThreads <= n <= 3275
    ensures LoadOk(NewLoadAvg(loadAvg, readyThreads), ExactLoad(exact, readyThreads), n)
  {
    LoadStepExact(loadAvg, readyThreads, n);
    var a, b := 16110 * loadAvg / ONE, readyThreads * ONE / 60;
    assert ONE * a <= 16110 * loadAvg < ONE * a + ONE;
    assert 60 * b <= ONE * readyThreads < 60 * b + 60;
    var x, r, m := loadAvg as real, readyThreads as real, n as real;
    assert 16384.0 * a as real <= 16110.0 * x < 16384.0 * a as real + 16384.0;
    assert 60.0 * b as real <= 16384.0 * r < 60.0 * b as real + 60.0;
    assert x <= 16384.0 * m;
    assert (a + b) as real == a as real + b as real;
    assert (56 * n + 120) as real == 56.0 * m + 120.0;
  }

  // ---------------------------------------------------------------- recent CPU time

  /** The bound on |recent_cpu| just after an update, when at most n threads are ever runnable. */
  function CpuBound(n: nat): int { (2 * n + 1) * 20 * ONE + 200 * n }

  lemma DecayAlgebra(c: int, x: int, n: nat)
    requires 0 <= c && 0 <= x <= 2 * n * ONE && c * (x + ONE) <= x * ONE
    ensures c < ONE && c * (2 * n + 1) <= 2 * n * ONE
  {
    assert c * (x + ONE) == c * x + c * ONE;
    if c >= ONE {
      MulOrder(ONE, c, x);
    }
    var d := ONE - c;
    assert x * d == x * ONE - c * x;
    MulOrder(x, 2 * n * ONE, d);
    assert 2 * n * ONE * d == ONE * (2 * n * d);
    assert c <= 2 * n * d;
    assert 2 * n * d == 2 * n * ONE - 2 * n * c;
    assert c * (2 * n + 1) == 2 * n * c + c;
  }

  lemma DivBelow(a: int, b: int)
    requires a >= 0 && b > 0
    ensures 0 <= a / b && a / b * b <= a
  {
  }

  /** The decay factor is below 2n/(2n+1). */
  lemma DecayBound(loadAvg: int, n: nat)
    requires 0 <= loadAvg <= n * ONE && n <= 3275
    ensures AddInt(MulInt(loadAvg, 2), 1) == 2 * loadAvg + ONE
    ensures 0 <= Decay(loadAvg) < ONE
    ensures Decay(loadAvg) * (2 * n + 1) <= 2 * n * ONE
  {
    var x := 2 * loadAvg;
    var c := x * ONE / (x + ONE);
    DivBelow(x * ONE, x + ONE);
    DecayAlgebra(c, x, n);
    assert MulInt(loadAvg, 2) == x && AddInt(x, 1) == x + ONE;
    assert Div(x, x + ONE) == c;
  }

  lemma DecayedNonNegative(coef: int, rc: int, n: nat, bound: int)
    requires 0 <= coef && coef * (2 * n + 1) <= 2 * n * ONE && 0 <= rc <= bound
    ensures 0 <= (2 * n + 1) * (coef * rc / ONE) <= 2 * n * bound
  {
    var q := coef * rc / ONE;
    NonNegative(coef, rc);
    assert 0 <= q && q * ONE <= coef * rc;
    MulOrder(q * ONE, coef * rc, 2 * n + 1);
    MulOrder(coef * (2 * n + 1), 2 * n * ONE, rc);
    MulOrder(rc, bound, 2 * n * ONE);
    assert coef * rc * (2 * n + 1) == coef * (2 * n + 1) * rc;
    assert q * ONE * (2 * n + 1) == ONE * ((2 * n + 1) * q);
    assert bound * (2 * n * ONE) == ONE * (2 * n * bound);
    NonNegative(2 * n + 1, q);
  }

  /** A product with the decay factor, truncated. */
  lemma DecayedBound(coef: int, rc: int, n: nat, bound: int)
    requires 0 <= coef < ONE && coef * (2 * n + 1) <= 2 * n * ONE
    requires -bound <= rc <= bound && bound >= 0
    ensures (2 * n + 1) * Quot(coef * rc, ONE) <= 2 * n * bound
    ensures -(2 * n * bound) <= (2 * n + 1) * Quot(coef * rc, ONE)
  {
    NonNegative(2 * n, bound);
    if rc >= 0 {
      DecayedNonNegative(coef, rc, n, bound);
      NonNegative(coef, rc);
    } else {
      DecayedNonNegative(coef, -rc, n, bound);
      NonNegative(coef, -rc);
      assert coef * rc == -(coef * (-rc));
      var q := coef * (-rc) / ONE;
      assert Quot(coef * rc, ONE) == -q;
      assert (2 * n + 1) * (-q) == -((2 * n + 1) * q);
    }
  }

  /** The bound is inductive: decay makes room for a second's charges and a new nice value. */
  lemma CpuBoundStep(q: int, n: nat)
    requires (2 * n + 1) * q <= 2 * n * (CpuBound(n) + TIMER_FREQ)
    ensures q + NICE_MAX * ONE <= CpuBound(n)
  {
    var m := 2 * n + 1;
    assert CpuBound(n) + TIMER_FREQ == m * (20 * ONE + 100);
    assert m * q <= m * (2 * n * (20 * ONE + 100));
    if q > 2 * n * (20 * ONE + 100) {
      MulStep(q, 2 * n * (20 * ONE + 100), m);
    }
  }

  lemma CpuFits(n: nat)
    requires n <= 3275
    ensures CpuBound(n) + TIMER_FREQ <= INT_MAX
  {
  }

  /** update_recent_cpu keeps the bound and overflows nowhere. */
  lemma RecentCpuStep(loadAvg: int, t: MThread, n: nat)
    requires 0 <= loadAvg <= n * ONE && n <= 3275 && NICE_MIN <= t.nice <= NICE_MAX
    requires -(CpuBound(n) + TIMER_FREQ) <= t.recentCpu <= CpuBound(n) + TIMER_FREQ
    ensures AddInt(MulInt(loadAvg, 2), 1) > 0
    ensures NewRecentCpu(loadAvg, t) == Quot(Decay(loadAvg) * t.recentCpu, ONE) + t.nice * ONE
    ensures -CpuBound(n) <= NewRecentCpu(loadAvg, t) <= CpuBound(n)
  {
    DecayBound(loadAvg, n);
    var q := Quot(Decay(loadAvg) * t.recentCpu, ONE);
    DecayedBound(Decay(loadAvg), t.recentCpu, n, CpuBound(n) + TIMER_FREQ);
    CpuBoundStep(q, n);
    CpuBoundStep(-q, n);
    CpuFits(n);
  }

  // ---------------------------------------------------------------- priorities

  /** The documented formula, PRI_MAX - recent_cpu / 4 - 2 nice, exactly, in units of 1/65536. */
  function Formula(t: MThread): int { 4 * PRI_MAX * ONE - t.recentCpu - 8 * t.nice * ONE }

  function Clamp(x: int, lo: int, hi: int): int
    requires lo <= hi
  {
    if x < lo then lo else if x > hi then hi else x
  }

  /** The priority as the code's truncating divisions have it, if nothing wrapped. */
  function ExactPriority(recentCpu: int, nice: int): int {
    Clamp(Quot(PRI_MAX * ONE - Quot(recentCpu, 4) - 2 * nice * ONE, ONE), PRI_MIN, PRI_MAX)
  }

  ghost predicate CpuInRange(t: MThread) {
    -INT_MAX <= t.recentCpu <= INT_MAX && NICE_MIN <= t.nice <= NICE_MAX
  }

  /** No intermediate of update_priority overflows. */
  lemma PriorityExact(t: MThread)
    requires CpuInRange(t)
    ensures NewPriority(t) == ExactPriority(t.recentCpu, t.nice)
  {
  }

  /** A priority is between 0 and 63, and never rises with recent_cpu or nice. */
  lemma PriorityAntitone(t: MThread, u: MThread)
    requires CpuInRange(t) && CpuInRange(u) && t.recentCpu <= u.recentCpu && t.nice <= u.nice
    ensures PRI_MIN <= NewPriority(u) <= NewPriority(t) <= PRI_MAX
  {
    PriorityExact(t);
    PriorityExact(u);
    QuotMonotone(t.recentCpu, u.recentCpu, 4);
    QuotMonotone(PRI_MAX * ONE - Quot(u.recentCpu, 4) - 2 * u.nice * ONE,
                 PRI_MAX * ONE - Quot(t.recentCpu, 4) - 2 * t.nice * ONE, ONE);
  }

  /** A priority computed up to three ticks ago is within 1 of the clamped formula on the current values. */
  lemma PriorityNearFormula(t: MThread, now: MThread)
    requires CpuInRange(t) && now.nice == t.nice && t.recentCpu <= now.recentCpu <= t.recentCpu + 3
    ensures
      var exact := Clamp(Formula(now), PRI_MIN, 4 * PRI_MAX * ONE);
      4 * ONE * (NewPriority(t) - 1) < exact < 4 * ONE * (NewPriority(t) + 1)
  {
    PriorityExact(t);
    QuotBounds(t.recentCpu, 4);
    QuotBounds(PRI_MAX * ONE - Quot(t.recentCpu, 4) - 2 * t.nice * ONE, ONE);
  }

  // ---------------------------------------------------------------- runs

  /** One thread's fields: CPU time within its bound, and a priority computed at most ticks % 4 charges ago. */
  ghost predicate ThreadOk(t: MThread, ticks: int, n: nat) {
    && NICE_MIN <= t.nice <= NICE_MAX
    && -(CpuBound(n) + ticks % TIMER_FREQ) <= t.recentCpu <= CpuBound(n) + ticks % TIMER_FREQ
    && PrioritySince(t, ticks % 4)
  }

  /** The stored priority was computed at most age charges ago. */
  ghost predicate PrioritySince(t: MThread, age: int) {
    exists d :: 0 <= d <= age && t.priority == PriorityBefore(t, d)
  }

  /** The priority d charges ago. */
  function PriorityBefore(t: MThread, d: int): int { NewPriority(t.(recentCpu := t.recentCpu - d)) }

  ghost predicate Inv(s: MState, exact: real, n: nat) {
    && n <= 3275 && s.ticks >= 0 && LoadOk(s.loadAvg, exact, n)
    && forall i :: 0 <= i < |s.threads| ==> ThreadOk(s.threads[i], s.ticks, n)
  }

  lemma PriorityFresh(t: MThread, age: int)
    requires age >= 0
    ensures PrioritySince(Reprioritised(t), age)
  {
    var r := Reprioritised(t);
    SamePriority(t, r.(recentCpu := r.recentCpu - 0));
    assert r.priority == PriorityBefore(r, 0);
  }

  lemma SamePriority(t: MThread, u: MThread)
    requires t.nice == u.nice && t.recentCpu == u.recentCpu
    ensures NewPriority(t) == NewPriority(u)
  {
  }

  lemma PriorityAges(t: MThread, charge: int, age: int)
    requires PrioritySince(t, age) && 0 <= charge <= 1
    ensures PrioritySince(t.(recentCpu := t.recentCpu + charge), age + 1)
  {
    var a := t.(recentCpu := t.recentCpu + charge);
    var d :| 0 <= d <= age && t.priority == PriorityBefore(t, d);
    SamePriority(a.(recentCpu := a.recentCpu - (d + charge)), t.(recentCpu := t.recentCpu - d));
    assert a.priority == PriorityBefore(a, d + charge);
  }

  /** A thread whose CPU time is in bounds, with its priority just computed. */
  lemma FreshKeeps(t: MThread, ticks: int, n: nat)
    requires NICE_MIN <= t.nice <= NICE_MAX
    requires -(CpuBound(n) + ticks % TIMER_FREQ) <= t.recentCpu <= CpuBound(n) + ticks % TIMER_FREQ
    ensures ThreadOk(Reprioritised(t), ticks, n)
  {
    PriorityFresh(t, ticks % 4);
  }

  lemma NextTick(ticks: int)
    requires ticks > 0
    ensures ticks % 4 != 0 ==> ticks % 4 == (ticks - 1) % 4 + 1
    ensures ticks % TIMER_FREQ != 0 ==> ticks % TIMER_FREQ == (ticks - 1) % TIMER_FREQ + 1
    ensures ticks % TIMER_FREQ == 0 ==> ticks % 4 == 0
    ensures (ticks - 1) % TIMER_FREQ + 1 <= TIMER_FREQ
  {
  }

  /** A tick that only charges, or does not touch, the thread. */
  lemma ChargeKeeps(t: MThread, charge: int, ticks: int, n: nat)
    requires ticks > 0 && ThreadOk(t, ticks - 1, n) && ticks % 4 != 0 && 0 <= charge <= 1
    ensures ThreadOk(t.(recentCpu := t.recentCpu + charge), ticks, n)
  {
    NextTick(ticks);
    PriorityAges(t, charge, (ticks - 1) % 4);
  }

  lemma ChargedIs(t: MThread, runs: bool, ticks: int, n: nat)
    requires n <= 3275 && ticks > 0 && ThreadOk(t, ticks - 1, n)
    ensures
      var a := if runs then Charged(t) else t;
      var bound := CpuBound(n) + (ticks - 1) % TIMER_FREQ + 1;
      a == t.(recentCpu := t.recentCpu + if runs then 1 else 0) && -bound <= a.recentCpu <= bound
  {
    CpuFits(n);
  }

  /** The tick at which recent_cpu decays. */
  lemma SecondKeeps(t: MThread, runs: bool, ticks: int, loadAvg: int, n: nat)
    requires n <= 3275 && ticks > 0 && ThreadOk(t, ticks - 1, n) && 0 <= loadAvg <= n * ONE && ticks % TIMER_FREQ == 0
    ensures AddInt(MulInt(loadAvg, 2), 1) > 0
    ensures ThreadOk(Reprioritised(Decayed(loadAvg, if runs then Charged(t) else t)), ticks, n)
  {
    var a := if runs then Charged(t) else t;
    ChargedIs(t, runs, ticks, n);
    NextTick(ticks);
    RecentCpuStep(loadAvg, a, n);
    FreshKeeps(Decayed(loadAvg, a), ticks, n);
  }

  /** A tick at which priorities are recomputed, without decay. */
  lemma QuarterKeeps(t: MThread, runs: bool, ticks: int, n: nat)
    requires n <= 3275 && ticks > 0 && ThreadOk(t, ticks - 1, n) && ticks % TIMER_FREQ != 0
    ensures ThreadOk(Reprioritised(if runs then Charged(t) else t), ticks, n)
  {
    ChargedIs(t, runs, ticks, n);
    NextTick(ticks);
    FreshKeeps(if runs then Charged(t) else t, ticks, n);
  }

  lemma DecayIsDefined(loadAvg: int, n: nat)
    requires n <= 3275 && 0 <= loadAvg <= n * ONE
    ensures AddInt(MulInt(loadAvg, 2), 1) > 0
  {
    DecayBound(loadAvg, n);
  }

  lemma TickThreadKeeps(t: MThread, runs: bool, ticks: int, loadAvg: int, n: nat, r: MThread)
    requires n <= 3275 && ticks > 0 && ThreadOk(t, ticks - 1, n) && 0 <= loadAvg <= n * ONE
    requires AddInt(MulInt(loadAvg, 2), 1) > 0 && r == TickThread(t, runs, ticks, loadAvg)
    ensures ThreadOk(r, ticks, n)
  {
    hide NewPriority;
    if ticks % TIMER_FREQ == 0 {
      NextTick(ticks);
      SecondKeeps(t, runs, ticks, loadAvg, n);
    } else if ticks % 4 == 0 {
      QuarterKeeps(t, runs, ticks, n);
    } else {
      ChargedIs(t, runs, ticks, n);
      ChargeKeeps(t, if runs then 1 else 0, ticks, n);
    }
  }

  lemma TickKeeps(s: MState, exact: real, running: nat, readyThreads: int, s': MState, n: nat)
    requires Inv(s, exact, n) && Ticked(s, running, readyThreads, s') && 0 <= readyThreads <= n
    ensures Inv(s', if s'.ticks % TIMER_FREQ == 0 then ExactLoad(exact, readyThreads) else exact, n)
  {
    if s'.ticks % TIMER_FREQ == 0 {
      LoadStep(s.loadAvg, exact, readyThreads, n);
    }
    DecayIsDefined(s'.loadAvg, n);
    forall i | 0 <= i < |s'.threads| ensures ThreadOk(s'.threads[i], s'.ticks, n) {
      TickThreadKeeps(s.threads[i], i == running, s'.ticks, s'.loadAvg, n, s'.threads[i]);
    }
  }

  /** The decay factor, exactly. */
  lemma DecayExact(loadAvg: int, n: nat)
    requires 0 <= loadAvg <= n * ONE && n <= 3275
    ensures AddInt(MulInt(loadAvg, 2), 1) > 0
    ensures Decay(loadAvg) == 2 * loadAvg * ONE / (2 * loadAvg + ONE)
  {
    DecayBound(loadAvg, n);
    var x := 2 * loadAvg;
    DivBelow(x * ONE, x + ONE);
    DecayAlgebra(x * ONE / (x + ONE), x, n);
    assert Div(x, x + ONE) == x * ONE / (x + ONE);
  }

  /**
   What a tick is to do to one thread, in integers that do not wrap: first the charge, then each full
   second the decay, and on every fourth tick the priority of the new values.
   */
  ghost predicate TickedExactly(t: MThread, t': MThread, runs: bool, ticks: int, loadAvg: int)
    requires 0 <= loadAvg
  {
    var cpu := t.recentCpu + if runs then 1 else 0;
    && t'.nice == t.nice
    && t'.recentCpu == (if ticks % TIMER_FREQ != 0 then cpu
                        else Quot(2 * loadAvg * ONE / (2 * loadAvg + ONE) * cpu, ONE) + t.nice * ONE)
    && t'.priority == if ticks % 4 != 0 then t.priority else ExactPriority(t'.recentCpu, t.nice)
  }

  lemma TickThreadExact(t: MThread, runs: bool, ticks: int, loadAvg: int, n: nat, r: MThread)
    requires n <= 3275 && ticks > 0 && ThreadOk(t, ticks - 1, n) && 0 <= loadAvg <= n * ONE
    requires AddInt(MulInt(loadAvg, 2), 1) > 0 && r == TickThread(t, runs, ticks, loadAvg)
    ensures TickedExactly(t, r, runs, ticks, loadAvg)
  {
    NextTick(ticks);
    CpuFits(n);
    ChargedIs(t, runs, ticks, n);
    var a := if runs then Charged(t) else t;
    if ticks % TIMER_FREQ == 0 {
      hide Quot, ExactPriority, PrioritySince, NewPriority, AddInt, MulInt;
      SecondExact(a, loadAvg, n);
      FreshPriority(Decayed(loadAvg, a), r);
    } else if ticks % 4 == 0 {
      hide Quot, ExactPriority, PrioritySince, NewPriority, AddInt, MulInt;
      FreshPriority(a, r);
    }
  }

  lemma SecondExact(t: MThread, loadAvg: int, n: nat)
    requires 0 <= loadAvg <= n * ONE && n <= 3275 && NICE_MIN <= t.nice <= NICE_MAX
    requires -(CpuBound(n) + TIMER_FREQ) <= t.recentCpu <= CpuBound(n) + TIMER_FREQ
    ensures AddInt(MulInt(loadAvg, 2), 1) > 0
    ensures Decayed(loadAvg, t) == t.(recentCpu := Decayed(loadAvg, t).recentCpu) && CpuInRange(Decayed(loadAvg, t))
    ensures Decayed(loadAvg, t).recentCpu ==
            Quot(2 * loadAvg * ONE / (2 * loadAvg + ONE) * t.recentCpu, ONE) + t.nice * ONE
  {
    RecentCpuStep(loadAvg, t, n);
    DecayExact(loadAvg, n);
    CpuFits(n);
    hide Quot, Decay, AddInt, MulInt, NewRecentCpu;
  }

  lemma FreshPriority(t: MThread, r: MThread)
    requires CpuInRange(t) && r == Reprioritised(t)
    ensures r.priority == ExactPriority(r.recentCpu, r.nice)
  {
    PriorityExact(t);
  }

  datatype Op =
    | Tick(running: nat, readyThreads: int)
    | SetNice(i: nat, nice: int)
    | Create(parent: nat)
    | Exit(i: nat)

  /** init_thread in this mode: nice and recent_cpu come from the creating thread. */
  function Child(t: MThread): MThread { Reprioritised(MThread(t.nice, t.recentCpu, 0)) }

  ghost predicate Step(s: MState, op: Op, s': MState, n: nat) {
    match op
    case Tick(running, readyThreads) => 0 <= readyThreads <= n && Ticked(s, running, readyThreads, s')
    case SetNice(i, nice) =>
      i < |s.threads| && NICE_MIN <= nice <= NICE_MAX &&
      s' == s.(threads := s.threads[i := Reprioritised(s.threads[i].(nice := nice))])
    case Create(parent) => parent < |s.threads| && s' == s.(threads := s.threads + [Child(s.threads[parent])])
    case Exit(i) => i < |s.threads| && s' == s.(threads := s.threads[..i] + s.threads[i + 1..])
  }

  ghost predicate Init(s: MState) {
    s == MState(0, 0, [Reprioritised(MThread(0, 0, 0))])
  }

  ghost predicate Run(states: seq<MState>, ops: seq<Op>, n: nat) {
    && |states| == |ops| + 1 && Init(states[0])
    && forall k :: 0 <= k < |ops| ==> Step(states[k], ops[k], states[k + 1], n)
  }

  /** The real-number load average after the first k operations. */
  ghost function ExactAfter(states: seq<MState>, ops: seq<Op>, k: nat): real
    requires |states| == |ops| + 1 && k <= |ops|
  {
    if k == 0 then 0.0
    else if ops[k - 1].Tick? && states[k].ticks % TIMER_FREQ == 0 then
      ExactLoad(ExactAfter(states, ops, k - 1), ops[k - 1].readyThreads)
    else ExactAfter(states, ops, k - 1)
  }

  lemma StepKeeps(s: MState, exact: real, op: Op, s': MState, n: nat)
    requires Inv(s, exact, n) && Step(s, op, s', n)
    ensures
      Inv(s', if op.Tick? && s'.ticks % TIMER_FREQ == 0 then ExactLoad(exact, op.readyThreads) else exact, n)
  {
    match op
    case Tick(running, readyThreads) => TickKeeps(s, exact, running, readyThreads, s', n);
    case _ => ThreadsKeep(s, exact, op, s', n);
  }

  lemma ThreadsKeep(s: MState, exact: real, op: Op, s': MState, n: nat)
    requires Inv(s, exact, n) && Step(s, op, s', n) && !op.Tick?
    ensures Inv(s', exact, n)
  {
    hide NewPriority;
    forall k | 0 <= k < |s'.threads| ensures ThreadOk(s'.threads[k], s'.ticks, n) {
      match op
      case SetNice(i, nice) => FreshKeeps(s.threads[i].(nice := nice), s.ticks, n);
      case Create(parent) => FreshKeeps(MThread(s.threads[parent].nice, s.threads[parent].recentCpu, 0), s.ticks, n);
      case Exit(i) => assert s'.threads[k] == s.threads[if k < i then k else k + 1];
    }
  }

  /** With at most n threads runnable at any tick, every state of every run is within bounds. */
  lemma {:induction false} RunsStayBounded(states: seq<MState>, ops: seq<Op>, n: nat, k: nat)
    requires Run(states, ops, n) && n <= 3275 && k <= |ops|
    ensures Inv(states[k], ExactAfter(states, ops, k), n)
    decreases k
  {
    if k == 0 {
      FreshKeeps(MThread(0, 0, 0), 0, n);
    } else {
      RunsStayBounded(states, ops, n, k - 1);
      StepKeeps(states[k - 1], ExactAfter(states, ops, k - 1), ops[k - 1], states[k], n);
    }
  }

  /** What every tick of every run computes, in integers that do not wrap. */
  lemma RunTicksExactly(states: seq<MState>, ops: seq<Op>, n: nat, k: nat, i: nat)
    requires Run(states, ops, n) && n <= 3275 && k < |ops| && ops[k].Tick? && i < |states[k].threads|
    ensures states[k + 1].ticks == states[k].ticks + 1 && |states[k + 1].threads| == |states[k].threads|
    ensures
      var s, s', r := states[k], states[k + 1], ops[k].readyThreads;
      && s'.loadAvg == (if s'.ticks % TIMER_FREQ != 0 then s.loadAvg else 16110 * s.loadAvg / ONE + r * ONE / 60)
      && 0 <= s'.loadAvg
      && TickedExactly(s.threads[i], s'.threads[i], i == ops[k].running, s'.ticks, s'.loadAvg)
  {
    RunsStayBounded(states, ops, n, k);
    assert Step(states[k], ops[k], states[k + 1], n);
    hide TickedExactly, Ticked;
    TickExact(states[k], ExactAfter(states, ops, k), ops[k].running, ops[k].readyThreads, states[k + 1], n, i);
  }

  lemma TickExact(s: MState, exact: real, running: nat, r: int, s': MState, n: nat, i: nat)
    requires Inv(s, exact, n) && Ticked(s, running, r, s') && 0 <= r <= n && i < |s.threads|
    ensures s'.ticks == s.ticks + 1 && |s'.threads| == |s.threads|
    ensures s'.loadAvg == if s'.ticks % TIMER_FREQ != 0 then s.loadAvg else 16110 * s.loadAvg / ONE + r * ONE / 60
    ensures 0 <= s'.loadAvg && TickedExactly(s.threads[i], s'.threads[i], i == running, s'.ticks, s'.loadAvg)
  {
    LoadStepExact(s.loadAvg, r, n);
    hide NewLoadAvg, TickThread, ThreadOk, TickedExactly, AddInt, MulInt;
    DecayIsDefined(s'.loadAvg, n);
    TickThreadExact(s.threads[i], i == running, s'.ticks, s'.loadAvg, n, s'.threads[i]);
  }

  /**
   Over every run with at most n <= 3275 runnable threads: the load average stays in [0, n], never
   exceeds the exact recurrence and falls short of it by at most (56 n + 120) / 16384; every recent_cpu
   stays below (2n + 1)(20 + 100/16384) in absolute value, so no int overflows; and every stored
   priority is in [0, 63] and within 1 of the formula on the thread's current values.
   */
  lemma RunsAreAccurate(states: seq<MState>, ops: seq<Op>, n: nat, k: nat, i: nat)
    requires Run(states, ops, n) && n <= 3275 && k <= |ops| && i < |states[k].threads|
    ensures LoadOk(states[k].loadAvg, ExactAfter(states, ops, k), n)
    ensures
      var t := states[k].threads[i];
      var formula := Clamp(Formula(t), PRI_MIN, 4 * PRI_MAX * ONE);
      && -((2 * n + 1) * (20 * ONE + 100)) <= t.recentCpu <= (2 * n + 1) * (20 * ONE + 100) <= INT_MAX
      && PRI_MIN <= t.priority <= PRI_MAX
      && 4 * ONE * (t.priority - 1) < formula < 4 * ONE * (t.priority + 1)
  {
    RunsStayBounded(states, ops, n, k);
    ThreadIsAccurate(states[k].threads[i], states[k].ticks, n);
  }

  lemma ThreadIsAccurate(t: MThread, ticks: int, n: nat)
    requires n <= 3275 && ThreadOk(t, ticks, n)
    ensures
      var formula := Clamp(Formula(t), PRI_MIN, 4 * PRI_MAX * ONE);
      && -((2 * n + 1) * (20 * ONE + 100)) <= t.recentCpu <= (2 * n + 1) * (20 * ONE + 100) <= INT_MAX
      && PRI_MIN <= t.priority <= PRI_MAX
      && 4 * ONE * (t.priority - 1) < formula < 4 * ONE * (t.priority + 1)
  {
    hide NewPriority;
    CpuFits(n);
    var d :| 0 <= d <= ticks % 4 && t.priority == PriorityBefore(t, d);
    var was := t.(recentCpu := t.recentCpu - d);
    assert CpuBound(n) + TIMER_FREQ == (2 * n + 1) * (20 * ONE + 100);
    assert CpuInRange(was);
    PriorityNearFormula(was, t);
    PriorityAntitone(was, was);
  }

  // ---------------------------------------------------------------- the code

  /** The threads update_load_avg counts: the ready list, and the running thread unless it is idle. */
  function ReadyThreads(readySize: nat, idle: bool): nat { if idle then readySize else readySize + 1 }

  class Scheduler {
    var ticks: int
    var loadAvg: int
    var allThreads: seq<MThread>

    function State(): MState
      reads this
    {
      MState(ticks, loadAvg, allThreads)
    }

    constructor ()
      ensures Init(State())
    {
      ticks, loadAvg := 0, 0;
      allThreads := [Reprioritised(MThread(0, 0, 0))];
    }

    /**
     thread_tick, after timer_interrupt has counted the tick. readySize is the length of the ready list
     and idle says whether the running thread is the idle thread; n bounds the load so that the divisor is positive. */
    method ThreadTick(running: nat, readySize: nat, idle: bool, ghost n: nat)
      requires running < |allThreads| && ReadyThreads(readySize, idle) <= n <= 3275 && 0 <= loadAvg <= n * ONE
      modifies this
      ensures Ticked(old(State()), running, ReadyThreads(readySize, idle), State())
      ensures ticks == old(ticks) + 1 && |allThreads| == |old(allThreads)|
      ensures loadAvg == if ticks % TIMER_FREQ != 0 then old(loadAvg)
                         else 16110 * old(loadAvg) / ONE + (if idle then readySize else readySize + 1) * ONE / 60
      ensures ticks % TIMER_FREQ != 0 ==>
                forall i :: 0 <= i < |allThreads| ==>
                  allThreads[i].recentCpu ==
                  if i == running then Wrap32(old(allThreads)[i].recentCpu + 1) else old(allThreads)[i].recentCpu
    {
      var readyThreads := readySize;
      if !idle {
        readyThreads := readyThreads + 1;
      }
      ghost var s := State();
      LoadStepExact(loadAvg, readyThreads, n);
      ticks := ticks + 1;
      allThreads := allThreads[running := Charged(allThreads[running])];
      if ticks % TIMER_FREQ == 0 {
        loadAvg := NewLoadAvg(loadAvg, readyThreads);
        DecayBound(loadAvg, n);
        UpdateRecentCpu();
      }
      if ticks % 4 == 0 {
        UpdatePriorities();
      }
    }

    /** thread_foreach(update_recent_cpu). */
    method UpdateRecentCpu()
      requires AddInt(MulInt(loadAvg, 2), 1) > 0
      modifies `allThreads
      ensures |allThreads| == |old(allThreads)|
      ensures forall i :: 0 <= i < |allThreads| ==> allThreads[i] == Decayed(loadAvg, old(allThreads)[i])
    {
      var k := 0;
      while k < |allThreads|
        invariant 0 <= k <= |allThreads| == |old(allThreads)|
        invariant forall i :: 0 <= i < k ==> allThreads[i] == Decayed(loadAvg, old(allThreads)[i])
        invariant forall i :: k <= i < |allThreads| ==> allThreads[i] == old(allThreads)[i]
      {
        allThreads := allThreads[k := Decayed(loadAvg, allThreads[k])];
        k := k + 1;
      }
    }

    /** thread_foreach(update_priority). */
    method UpdatePriorities()
      modifies `allThreads
      ensures |allThreads| == |old(allThreads)|
      ensures forall i :: 0 <= i < |allThreads| ==> allThreads[i] == Reprioritised(old(allThreads)[i])
    {
      var k := 0;
      while k < |allThreads|
        invariant 0 <= k <= |allThreads| == |old(allThreads)|
        invariant forall i :: 0 <= i < k ==> allThreads[i] == Reprioritised(old(allThreads)[i])
        invariant forall i :: k <= i < |allThreads| ==> allThreads[i] == old(allThreads)[i]
      {
        allThreads := allThreads[k := Reprioritised(allThreads[k])];
        k := k + 1;
      }
    }

    /** thread_set_nice, up to its yield. */
    method SetNice(i: nat, nice: int, ghost n: nat)
      requires i < |allThreads| && NICE_MIN <= nice <= NICE_MAX
      modifies `allThreads
      ensures Step(old(State()), Op.SetNice(i, nice), State(), n)
      ensures |allThreads| == |old(allThreads)| && forall k :: 0 <= k < |allThreads| && k != i ==> allThreads[k] == old(allThreads)[k]
      ensures allThreads[i].nice == nice && allThreads[i].recentCpu == old(allThreads)[i].recentCpu
      ensures CpuInRange(allThreads[i]) ==> allThreads[i].priority == ExactPriority(allThreads[i].recentCpu, nice)
    {
      hide NewPriority, ExactPriority;
      var t := allThreads[i].(nice := nice);
      allThreads := allThreads[i := Reprioritised(t)];
      if CpuInRange(t) {
        FreshPriority(t, allThreads[i]);
      }
    }

    /** init_thread, as thread_create calls it for a child of the thread at index parent. */
    method Create(parent: nat, ghost n: nat)
      requires parent < |allThreads|
      modifies `allThreads
      ensures Step(old(State()), Op.Create(parent), State(), n)
      ensures |allThreads| == |old(allThreads)| + 1 && allThreads[..|old(allThreads)|] == old(allThreads)
      ensures
        var child, cur := allThreads[|old(allThreads)|], old(allThreads)[parent];
        && child.nice == cur.nice && child.recentCpu == cur.recentCpu
        && (CpuInRange(cur) ==> child.priority == ExactPriority(cur.recentCpu, cur.nice))
    {
      hide NewPriority, ExactPriority;
      var cur := allThreads[parent];
      var child := MThread(cur.nice, cur.recentCpu, 0);
      allThreads := allThreads + [Reprioritised(child)];
      if CpuInRange(cur) {
        FreshPriority(child, Reprioritised(child));
      }
    }

    /** thread_get_load_avg: 100 times the load average, to the nearest integer exactly when that fits 32 bits. */
    method GetLoadAvg() returns (r: int)
      requires 0 <= loadAvg <= INT_MAX
      ensures r == Hundredfold(loadAvg)
      ensures IsNearest(r, 100 * loadAvg) <==> 100 * loadAvg + ONE / 2 <= INT_MAX
    {
      HundredfoldIff(loadAvg);
      r := Round(MulInt(loadAvg, 100));
    }

    /** thread_get_recent_cpu, for the running thread's index. */
    method GetRecentCpu(running: nat) returns (r: int)
      requires running < |allThreads| && In32(allThreads[running].recentCpu)
      ensures
        var x := allThreads[running].recentCpu;
        && r == Hundredfold(x)
        && (IsNearest(r, 100 * x) <==> -INT_MAX - 1 <= 100 * x - ONE / 2 && 100 * x + ONE / 2 <= INT_MAX)
    {
      HundredfoldIff(allThreads[running].recentCpu);
      r := Round(MulInt(allThreads[running].recentCpu, 100));
    }
  }
}
