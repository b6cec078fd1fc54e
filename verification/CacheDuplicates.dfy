/**
 Why the buffer cache needs its callers to keep to one operation a sector: find_cache_entry drops
 the cache lock between missing and claiming an entry (file-system/filesys/cache.c:81-86), so two
 threads that miss the same sector both claim an entry for it. PairKeepsUniqueIff says exactly when two
 simultaneous operations do that.
 */
module CacheDuplicates {
  import opened Machine
  import opened BufferCache
  import opened CacheProtocol
  import opened Reachability

  /** One step of any thread, with no restriction on who works on which sector. */
  ghost predicate AnyStep(st: State, st': State) {
    exists t: nat, ev: Event :: Wf(st) && t < |st.pcs| && Next(st, t, ev, st', false)
  }

  ghost function Any(): (State, State) -> bool {
    (a: State, b: State) => AnyStep(a, b)
  }

  /** One step of a thread that is inside an operation: nobody begins a new one. */
  ghost predicate WorkingStep(st: State, st': State) {
    exists t: nat, ev: Event :: Wf(st) && t < |st.pcs| && InFlight(st.pcs[t]) && Next(st, t, ev, st', false)
  }

  ghost function Working(): (State, State) -> bool {
    (a: State, b: State) => WorkingStep(a, b)
  }

  type Steps = (State, State) -> bool

  /** The relation step allows every step an operation can take. */
  ghost predicate Covers(step: Steps) {
    forall st: State, st': State :: WorkingStep(st, st') ==> step(st, st')
  }

  lemma Took(step: Steps, st: State, t: nat, ev: Event, st': State)
    requires Covers(step) && Wf(st) && t < |st.pcs| && InFlight(st.pcs[t]) && Next(st, t, ev, st', false)
    ensures step(st, st') && Wf(st')
  {
    assert WorkingStep(st, st');
    NextMovesThread(st, t, ev, st', false);
    assert |st'.locks| == CACHE_SIZE;
  }

  // ---------------------------------------------------------------- the parts of a miss

  /** A thread whose sector is not cached looks at every entry and misses. */
  lemma {:induction false} ScanMisses(step: Steps, st: State, t: nat, op: Request, k: nat) returns (n: nat)
    requires Covers(step) && Wf(st) && t < |st.pcs| && k < CACHE_SIZE && st.pcs[t] == FindScan(op, k)
    requires forall i :: 0 <= i < CACHE_SIZE ==> st.entries[i].sector != op.sector
    ensures Reaches(step, st, n, Goto(st, t, WantNext(op)).(bufferLock := None))
    decreases CACHE_SIZE - k
  {
    var last := Goto(st, t, WantNext(op)).(bufferLock := None);
    if k + 1 == CACHE_SIZE {
      Took(step, st, t, Silent, last);
      assert Reaches(step, last, 0, last);
      n := 1;
    } else {
      var mid := Goto(st, t, FindScan(op, k + 1));
      Took(step, st, t, Silent, mid);
      n := ScanMisses(step, mid, t, op, k + 1);
      assert Goto(mid, t, WantNext(op)).(bufferLock := None) == last;
      n := n + 1;
    }
  }

  /** From the start of an operation to a miss. */
  lemma Misses(step: Steps, st: State, t: nat, op: Request) returns (n: nat)
    requires Covers(step) && Wf(st) && t < |st.pcs| && st.pcs[t] == WantFind(op) && st.bufferLock == None
    requires !Cached(st.entries, op.sector)
    ensures Reaches(step, st, n, Goto(st, t, WantNext(op))) && Wf(Goto(st, t, WantNext(op)))
  {
    var b := Goto(st, t, FindScan(op, 0)).(bufferLock := Some(t));
    assert WfPc(st.pcs[t], |st.disk|);
    Took(step, st, t, Silent, b);
    var m := ScanMisses(step, b, t, op, 0);
    assert Goto(b, t, WantNext(op)).(bufferLock := None) == Goto(st, t, WantNext(op));
    n := 1 + m;
  }

  /** Only accessed bits from k on may differ; entry j and those before it, from k, have lost theirs. */
  ghost predicate Scanned(es: seq<CacheEntry>, es': seq<CacheEntry>, k: nat, j: nat) {
    && |es'| == |es| && k <= j < |es|
    && (forall x :: 0 <= x < |es| ==> es'[x] == es[x].(accessed := es'[x].accessed))
    && (forall x :: k <= x <= j ==> !es'[x].accessed)
    && (forall x :: 0 <= x < |es| && (x < k || j < x) ==> es'[x] == es[x])
    && (forall x :: k <= x < j ==> es[x].accessed) && (j + 1 < |es| ==> !es[j].accessed)
  }

  /** The scan of next_cache_entry finds a victim. */
  lemma {:induction false} ScanPicks(step: Steps, st: State, t: nat, op: Request, k: nat) returns (n: nat, j: nat, st': State)
    requires Covers(step) && Wf(st) && t < |st.pcs| && k < CACHE_SIZE && st.pcs[t] == NextScan(op, k)
    ensures Reaches(step, st, n, st') && Wf(st') && j < CACHE_SIZE && Scanned(st.entries, st'.entries, k, j)
    ensures st' == Goto(st, t, WantVictim(op, j)).(entries := st'.entries, bufferLock := None)
    decreases CACHE_SIZE - k
  {
    if !st.entries[k].accessed {
      j := k;
      st' := Goto(st, t, WantVictim(op, k)).(bufferLock := None);
      Took(step, st, t, Silent, st');
      assert Reaches(step, st', 0, st');
      n := 1;
    } else {
      var cleared := st.(entries := st.entries[k := st.entries[k].(accessed := false)]);
      if k + 1 == CACHE_SIZE {
        j := k;
        st' := Goto(cleared, t, WantVictim(op, k)).(bufferLock := None);
        Took(step, st, t, Silent, st');
        assert Reaches(step, st', 0, st');
        n := 1;
      } else {
        var mid := Goto(cleared, t, NextScan(op, k + 1));
        Took(step, st, t, Silent, mid);
        n, j, st' := ScanPicks(step, mid, t, op, k + 1);
        n := n + 1;
      }
    }
  }

  /** Nobody holds a lock, and every dirty entry can be written back. */
  ghost predicate Free(st: State) {
    && Wf(st) && st.bufferLock == None
    && (forall i :: 0 <= i < CACHE_SIZE ==> st.locks[i] == None)
    && (forall i :: 0 <= i < CACHE_SIZE && st.entries[i].dirty ==> st.entries[i].sector < |st.disk|)
  }

  /** From wanting a victim to having claimed it. */
  lemma ClaimsVictim(step: Steps, st: State, t: nat, op: Request, i: nat) returns (st': State)
    requires Covers(step) && Free(st) && t < |st.pcs| && st.pcs[t] == WantVictim(op, i)
    requires i < CACHE_SIZE && !st.entries[i].accessed
    ensures Reaches(step, st, 3, st') && Wf(st') && |st'.disk| == |st.disk|
    ensures st' == Goto(st, t, Filling(op, i)).(
                     disk := st'.disk, locks := st.locks[i := Some(t)],
                     entries := st.entries[i := st.entries[i].(dirty := false, sector := op.sector)])
  {
    var b := Goto(st, t, CheckVictim(op, i)).(locks := st.locks[i := Some(t)]);
    var c := Goto(WriteBack(b, i), t, Flushed(op, i));
    st' := Goto(c, t, Filling(op, i)).(entries := c.entries[i := c.entries[i].(sector := op.sector)]);
    Took(step, st, t, Silent, b);
    Took(step, b, t, Silent, c);
    Took(step, c, t, Silent, st');
    assert Reaches(step, st, 0, st);
    ThenStep(step, st, 0, st, b);
    ThenStep(step, st, 1, b, c);
    ThenStep(step, st, 2, c, st');
  }

  /** The rest of the operation: fill, copy, mark accessed, release. */
  lemma Finishes(step: Steps, st: State, t: nat, op: Request, i: nat) returns (e: CacheEntry, st': State)
    requires Covers(step) && Wf(st) && t < |st.pcs| && i < CACHE_SIZE && st.pcs[t] == Filling(op, i)
    requires st.entries[i].sector == op.sector
    ensures Reaches(step, st, 3, st') && Wf(st') && e.accessed && e.sector == op.sector < |st.disk|
    ensures st' == Goto(st, t, Idle).(entries := st.entries[i := e], locks := st.locks[i := None])
  {
    assert WfPc(st.pcs[t], |st.disk|);
    var a := Goto(st, t, Using(op, i)).(entries := st.entries[i := st.entries[i].(data := st.disk[op.sector])]);
    e := Touched(op, a.entries[i]);
    var b := Goto(a, t, Done(op, i)).(entries := a.entries[i := e]);
    st' := Goto(b, t, Idle).(locks := b.locks[i := None]);
    Took(step, st, t, Silent, a);
    Took(step, a, t, Shown(op, a.entries[i]), b);
    Took(step, b, t, Silent, st');
    assert Reaches(step, st, 0, st);
    ThenStep(step, st, 0, st, a);
    ThenStep(step, st, 1, a, b);
    ThenStep(step, st, 2, b, st');
    assert st'.entries == st.entries[i := e];
  }

  /** A missed thread picks and claims a victim. */
  lemma PicksAndClaims(step: Steps, st: State, t: nat, op: Request) returns (n: nat, i: nat, es: seq<CacheEntry>, st': State)
    requires Covers(step) && Free(st) && t < |st.pcs| && st.pcs[t] == WantNext(op)
    ensures Reaches(step, st, n, st') && Wf(st') && |st'.disk| == |st.disk|
    ensures i < CACHE_SIZE && Scanned(st.entries, es, 0, i)
    ensures st' == Goto(st, t, Filling(op, i)).(
                     disk := st'.disk, locks := st.locks[i := Some(t)],
                     entries := es[i := es[i].(dirty := false, sector := op.sector)])
  {
    assert WfPc(st.pcs[t], |st.disk|);
    var a := Goto(st, t, NextScan(op, 0)).(bufferLock := Some(t));
    Took(step, st, t, Silent, a);
    var m, b;
    m, i, b := ScanPicks(step, a, t, op, 0);
    es := b.entries;
    assert Free(b);
    st' := ClaimsVictim(step, b, t, op, i);
    ReachesThen(step, a, m, b, 3, st');
    n := 1 + (m + 3);
  }

  /** A missed thread runs to the end. Entry 0 is accessed afterwards exactly if it was the victim. */
  lemma ClaimsAndFinishes(step: Steps, st: State, t: nat, op: Request) returns (n: nat, i: nat, st': State)
    requires Covers(step) && Free(st) && t < |st.pcs| && st.pcs[t] == WantNext(op)
    ensures Reaches(step, st, n, st') && Free(st') && |st'.disk| == |st.disk|
    ensures i < CACHE_SIZE && st'.entries[i].sector == op.sector && (st'.entries[0].accessed <==> i == 0)
    ensures st'.pcs == st.pcs[t := Idle]
    ensures (forall x :: 0 <= x < CACHE_SIZE ==> !st.entries[x].accessed) ==> i == 0 && !st'.entries[1].accessed
  {
    var m, es, a := 0, st.entries, st;
    m, i, es, a := PicksAndClaims(step, st, t, op);
    var e;
    e, st' := Finishes(step, a, t, op, i);
    ReachesThen(step, st, m, a, 3, st');
    n := m + 3;
  }

  /** The second thread to have missed takes another entry for the same sector. */
  lemma SecondClaims(step: Steps, st: State, u: nat, op: Request, i: nat) returns (n: nat, j: nat, st': State)
    requires Covers(step) && Free(st) && u < |st.pcs| && st.pcs[u] == WantNext(op)
    requires i < CACHE_SIZE && st.entries[i].sector == op.sector && (st.entries[0].accessed <==> i == 0)
    ensures Reaches(step, st, n, st') && |st'.entries| == CACHE_SIZE && op.sector < |st.disk| <= NO_SECTOR
    ensures j < CACHE_SIZE && j != i && st'.entries[i].sector == st'.entries[j].sector == op.sector
    ensures i == 0 && !st.entries[1].accessed ==> j == 1
  {
    assert WfPc(st.pcs[u], |st.disk|);
    var es;
    n, j, es, st' := PicksAndClaims(step, st, u, op);
  }

  // ---------------------------------------------------------------- two operations at once

  /** Both operations about to begin. */
  function Pair(st: State, t: nat, u: nat, op: Request, op': Request): State
    requires t < |st.pcs| && u < |st.pcs|
  {
    Goto(Goto(st, t, WantFind(op)), u, WantFind(op'))
  }

  /** No interleaving of what is under way caches a sector twice. */
  ghost predicate KeepsUnique(st: State) {
    forall n: nat, st': State :: Reaches(Working(), st, n, st') ==> Unique(st'.entries)
  }

  /** The holder of the cache lock is scanning. */
  ghost predicate BufferOk(st: State) {
    st.bufferLock.Some? ==>
      var t := st.bufferLock.value;
      t < |st.pcs| && (st.pcs[t].FindScan? || st.pcs[t].NextScan?)
  }

  lemma BufferKept(st: State, t: nat, ev: Event, st': State, serial: bool)
    requires Wf(st) && BufferOk(st) && t < |st.pcs| && Next(st, t, ev, st', serial)
    ensures BufferOk(st')
  {
    NextMovesThread(st, t, ev, st', serial);
  }

  /** So it is in every run, which starts with the lock free. */
  lemma {:induction false} RunsKeepBuffer(states: seq<State>, who: seq<nat>, evs: seq<Event>, n: nat)
    requires Run(states, who, evs) && n < |states|
    ensures BufferOk(states[n])
    decreases n
  {
    hide Next;
    if n > 0 {
      RunsKeepBuffer(states, who, evs, n - 1);
      BufferKept(states[n - 1], who[n - 1], evs[n - 1], states[n], true);
    }
  }

  ghost predicate AllIdle(st: State) {
    forall t :: 0 <= t < |st.pcs| ==> st.pcs[t] == Idle
  }

  /** A missed sector, missed twice. */
  lemma BothMiss(step: Steps, st: State, t: nat, u: nat, op: Request, op': Request) returns (n: nat, i: nat, j: nat, st': State)
    requires Covers(step) && Free(st) && t < |st.pcs| && u < |st.pcs| && t != u && AllIdle(st)
    requires WfRequest(op, |st.disk|) && WfRequest(op', |st.disk|) && op.sector == op'.sector
    requires !Cached(st.entries, op.sector)
    ensures Reaches(step, Pair(st, t, u, op, op'), n, st') && |st'.entries| == CACHE_SIZE
    ensures i < CACHE_SIZE && j < CACHE_SIZE && i != j && op.sector < |st.disk| <= NO_SECTOR
    ensures st'.entries[i].sector == st'.entries[j].sector == op.sector
    ensures (forall x :: 0 <= x < CACHE_SIZE ==> !st.entries[x].accessed) ==> i == 0 && j == 1
  {
    var s0 := Pair(st, t, u, op, op');
    var m0 := Misses(step, s0, t, op);
    var s1 := Goto(s0, t, WantNext(op));
    var m1 := Misses(step, s1, u, op');
    var s2 := Goto(s1, u, WantNext(op'));
    ReachesThen(step, s0, m0, s1, m1, s2);
    var m2, s3;
    m2, i, s3 := ClaimsAndFinishes(step, s2, t, op);
    ReachesThen(step, s0, m0 + m1, s2, m2, s3);
    var m3;
    m3, j, st' := SecondClaims(step, s3, u, op', i);
    ReachesThen(step, s0, m0 + m1 + m2, s3, m3, st');
    n := m0 + m1 + m2 + m3;
  }

  /** Different sectors: the callers keep to one operation a sector, and the invariant holds throughout. */
  lemma DifferentSectors(st: State, mem: seq<Sector>, t: nat, u: nat, op: Request, op': Request)
    requires Inv(st, mem) && AllIdle(st) && t < |st.pcs| && u < |st.pcs| && t != u
    requires WfRequest(op, |st.disk|) && WfRequest(op', |st.disk|) && op.sector != op'.sector
    ensures KeepsUnique(Pair(st, t, u, op, op'))
  {
    var a := Goto(st, t, WantFind(op));
    var b := Pair(st, t, u, op, op');
    StepKeeps(st, t, Silent, a, mem);
    StepKeeps(a, u, Silent, b, mem);
    forall x: State, y: State | Sound(x) && WorkingStep(x, y) ensures Sound(y) {
      SoundKept(x, y);
    }
    forall n: nat, st': State | Reaches(Working(), b, n, st') ensures Unique(st'.entries) {
      RunsKeep(Working(), x => Sound(x), b, n, st');
    }
  }

  ghost predicate Sound(st: State) {
    exists mem: seq<Sector> :: Inv(st, mem)
  }

  lemma SoundKept(x: State, y: State)
    requires Sound(x) && WorkingStep(x, y)
    ensures Sound(y)
  {
    var mem: seq<Sector> :| Inv(x, mem);
    var t: nat, ev: Event :| Wf(x) && t < |x.pcs| && InFlight(x.pcs[t]) && Next(x, t, ev, y, false);
    StepKeeps(x, t, ev, y, mem);
  }

  /** Where a thread can be while its sector is cached in entry k. */
  ghost predicate OnHitPath(pc: Pc, s: int, k: nat) {
    || pc.Idle? || (pc.WantFind? && pc.op.sector == s) || (pc.FindScan? && pc.op.sector == s && pc.i <= k)
    || ((pc.WantHit? || pc.CheckHit? || pc.Using? || pc.Done?) && pc.op.sector == s && pc.i == k)
  }

  ghost predicate Hitting(st: State, s: int, k: nat) {
    && Wf(st) && Unique(st.entries) && k < CACHE_SIZE && st.entries[k].sector == s != NO_SECTOR
    && forall t :: 0 <= t < |st.pcs| ==> OnHitPath(st.pcs[t], s, k)
  }

  lemma HittingKept(x: State, y: State, s: int, k: nat)
    requires Hitting(x, s, k) && WorkingStep(x, y)
    ensures Hitting(y, s, k)
  {
    var t: nat, ev: Event :| Wf(x) && t < |x.pcs| && InFlight(x.pcs[t]) && Next(x, t, ev, y, false);
    NextMovesThread(x, t, ev, y, false);
    assert OnHitPath(x.pcs[t], s, k);
    HitStep(x, t, ev, y, s, k);
    assert |y.locks| == CACHE_SIZE;
  }

  lemma HitStep(x: State, t: nat, ev: Event, y: State, s: int, k: nat)
    requires Wf(x) && Unique(x.entries) && k < CACHE_SIZE && x.entries[k].sector == s != NO_SECTOR && t < |x.pcs|
    requires InFlight(x.pcs[t]) && OnHitPath(x.pcs[t], s, k) && Next(x, t, ev, y, false)
    ensures t < |y.pcs| && OnHitPath(y.pcs[t], s, k) && |y.entries| == CACHE_SIZE && |y.locks| == CACHE_SIZE
    ensures forall i :: 0 <= i < CACHE_SIZE ==> y.entries[i].sector == x.entries[i].sector
  {
  }

  /** A cached sector: nobody misses, so nobody claims an entry. */
  lemma CachedSector(st: State, mem: seq<Sector>, t: nat, u: nat, op: Request, op': Request)
    requires Inv(st, mem) && AllIdle(st) && t < |st.pcs| && u < |st.pcs| && t != u
    requires WfRequest(op, |st.disk|) && WfRequest(op', |st.disk|) && op.sector == op'.sector
    requires Cached(st.entries, op.sector)
    ensures KeepsUnique(Pair(st, t, u, op, op'))
  {
    var b, s := Pair(st, t, u, op, op'), op.sector;
    var k :| 0 <= k < |st.entries| && st.entries[k].sector == s;
    assert Hitting(b, s, k);
    forall x: State, y: State | Hitting(x, s, k) && WorkingStep(x, y) ensures Hitting(y, s, k) {
      HittingKept(x, y, s, k);
    }
    forall n: nat, st': State | Reaches(Working(), b, n, st') ensures Unique(st'.entries) {
      RunsKeep(Working(), x => Hitting(x, s, k), b, n, st');
    }
  }

  lemma IdleIsFree(st: State, mem: seq<Sector>)
    requires Inv(st, mem) && BufferOk(st) && AllIdle(st)
    ensures Free(st)
  {
    forall i | 0 <= i < CACHE_SIZE && st.entries[i].dirty ensures st.entries[i].sector < |st.disk| {
      assert EntryAgrees(st, mem, i);
    }
  }

  /**
   Any two operations begun on an idle cache: every interleaving of them keeps sectors cached at most
   once exactly when they are on different sectors or their sector is cached already.
   */
  lemma PairKeepsUniqueIff(st: State, mem: seq<Sector>, t: nat, u: nat, op: Request, op': Request)
    requires Inv(st, mem) && BufferOk(st) && AllIdle(st) && t < |st.pcs| && u < |st.pcs| && t != u
    requires WfRequest(op, |st.disk|) && WfRequest(op', |st.disk|)
    ensures KeepsUnique(Pair(st, t, u, op, op')) <==> op.sector != op'.sector || Cached(st.entries, op.sector)
  {
    if op.sector != op'.sector {
      DifferentSectors(st, mem, t, u, op, op');
    } else if Cached(st.entries, op.sector) {
      CachedSector(st, mem, t, u, op, op');
    } else {
      IdleIsFree(st, mem);
      var n, i, j, bad := BothMiss(Working(), st, t, u, op, op');
      assert Reaches(Working(), Pair(st, t, u, op, op'), n, bad) && !Unique(bad.entries) by {
        TwiceIsNotUnique(bad.entries, i, j);
      }
    }
  }

  lemma TwiceIsNotUnique(es: seq<CacheEntry>, i: nat, j: nat)
    requires i < |es| && j < |es| && i != j && es[i].sector == es[j].sector != NO_SECTOR
    ensures !Unique(es)
  {
    if i < j {
      assert es[i].sector == es[j].sector;
    } else {
      assert es[j].sector == es[i].sector;
    }
  }

  // ---------------------------------------------------------------- from start-up

  /** The cache just initialised, with two threads, over any device with a sector. */
  ghost function Start(disk: seq<Sector>): State {
    State(seq(CACHE_SIZE, _ => CacheEntry(NO_SECTOR, false, false, ZeroSector())),
          seq(CACHE_SIZE, _ => None), None, disk, [Idle, Idle])
  }

  /** Two operations on sector 0, at the same time: the sector ends up in entries 0 and 1. */
  lemma DuplicateEntries(disk: seq<Sector>) returns (n: nat, st: State)
    requires 0 < |disk| <= NO_SECTOR
    ensures Init(Start(disk)) && Reaches(Any(), Start(disk), n, st)
    ensures |st.entries| == CACHE_SIZE && st.entries[0].sector == 0 && st.entries[1].sector == 0 && !Unique(st.entries)
  {
    var s0, op := Start(disk), ReadReq(0, 0, 0);
    AnyCovers();
    var m, i, j;
    m, i, j, st := BothMiss(Any(), s0, 0, 1, op, op);
    TwiceIsNotUnique(st.entries, i, j);
    var k := BothBegin(s0, op);
    ReachesThen(Any(), s0, k, Pair(s0, 0, 1, op, op), m, st);
    n := k + m;
  }

  lemma AnyCovers()
    ensures Covers(Any())
  {
    forall x: State, y: State | WorkingStep(x, y) ensures AnyStep(x, y) {
    }
  }

  lemma BothBegin(st: State, op: Request) returns (k: nat)
    requires Wf(st) && st.pcs == [Idle, Idle] && WfRequest(op, |st.disk|)
    ensures Reaches(Any(), st, k, Pair(st, 0, 1, op, op))
  {
    var a, b := Goto(st, 0, WantFind(op)), Pair(st, 0, 1, op, op);
    assert Next(st, 0, Silent, a, false) && Next(a, 1, Silent, b, false);
    assert AnyStep(st, a) && AnyStep(a, b);
    assert Reaches(Any(), st, 0, st);
    ThenStep(Any(), st, 0, st, a);
    ThenStep(Any(), st, 1, a, b);
    k := 2;
  }

  // ---------------------------------------------------------------- one step

  /** Thread t is about to claim an entry for a sector that another entry already has. */
  ghost predicate ClaimsCached(st: State, t: nat)
    requires Wf(st) && t < |st.pcs|
  {
    st.pcs[t].Flushed? &&
    exists j :: 0 <= j < CACHE_SIZE && j != st.pcs[t].i && st.entries[j].sector == st.pcs[t].op.sector
  }

  lemma SectorsKept(st: State, t: nat, ev: Event, st': State)
    requires Wf(st) && t < |st.pcs| && Next(st, t, ev, st', false) && !st.pcs[t].Flushed?
    ensures |st'.entries| == CACHE_SIZE
    ensures forall i :: 0 <= i < CACHE_SIZE ==> st'.entries[i].sector == st.entries[i].sector
  {
  }

  /** The step at which it happens. */
  lemma UniqueKeptIff(st: State, t: nat, ev: Event, st': State)
    requires Wf(st) && t < |st.pcs| && Next(st, t, ev, st', false) && Unique(st.entries) && |st.disk| <= NO_SECTOR
    ensures Unique(st'.entries) <==> !ClaimsCached(st, t)
  {
    if !st.pcs[t].Flushed? {
      SectorsKept(st, t, ev, st');
    } else {
      var i, s := st.pcs[t].i, st.pcs[t].op.sector;
      assert WfPc(st.pcs[t], |st.disk|);
      assert st'.entries == st.entries[i := st.entries[i].(sector := s)];
      if j :| 0 <= j < CACHE_SIZE && j != i && st.entries[j].sector == s {
        assert st'.entries[j].sector == st'.entries[i].sector == s != NO_SECTOR;
      }
    }
  }
}
