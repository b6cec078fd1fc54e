/**
 That the interleavings of module CacheProtocol get somewhere: the two kinds of lock never deadlock, and what a
 step shows answers the request its thread has been at since it began it.
 */
module CacheProgress {
  import opened Machine
  import opened BufferCache
  import opened CacheProtocol
  import CacheDuplicates

  ghost predicate CanStep(st: State, t: nat)
    requires Wf(st)
  {
    t < |st.pcs| && exists ev, st' :: Next(st, t, ev, st', true)
  }

  /** The lock a thread is about to take, if it is, is free. */
  predicate LockFree(st: State, t: nat)
    requires t < |st.pcs| && |st.locks| == CACHE_SIZE
  {
    match st.pcs[t]
    case WantFind(_) => st.bufferLock == None
    case WantNext(_) => st.bufferLock == None
    case WantHit(_, i) => i < CACHE_SIZE && st.locks[i] == None
    case WantVictim(_, i) => i < CACHE_SIZE && st.locks[i] == None
    case SaveWant(i) => i < CACHE_SIZE && st.locks[i] == None
    case _ => true
  }

  predicate Waits(pc: Pc) { pc.WantFind? || pc.WantNext? || pc.WantHit? || pc.WantVictim? || pc.SaveWant? }

  lemma WaiterMoves(st: State, t: nat)
    requires Wf(st) && t < |st.pcs| && Waits(st.pcs[t]) && LockFree(st, t)
    ensures CanStep(st, t)
  {
    match st.pcs[t]
    case WantFind(op) => assert Next(st, t, Silent, Goto(st, t, FindScan(op, 0)).(bufferLock := Some(t)), true);
    case WantNext(op) => assert Next(st, t, Silent, Goto(st, t, NextScan(op, 0)).(bufferLock := Some(t)), true);
    case WantHit(op, i) => assert Next(st, t, Silent, Goto(st, t, CheckHit(op, i)).(locks := st.locks[i := Some(t)]), true);
    case WantVictim(op, i) => assert Next(st, t, Silent, Goto(st, t, CheckVictim(op, i)).(locks := st.locks[i := Some(t)]), true);
    case SaveWant(i) => assert Next(st, t, Silent, Goto(st, t, SaveHold(i)).(locks := st.locks[i := Some(t)]), true);
  }

  lemma ScannerMoves(st: State, t: nat)
    requires Wf(st) && t < |st.pcs| && (st.pcs[t].FindScan? || st.pcs[t].NextScan?)
    ensures CanStep(st, t)
  {
    assert WfPc(st.pcs[t], |st.disk|);
    match st.pcs[t]
    case FindScan(op, i) =>
      if st.entries[i].sector == op.sector {
        assert Next(st, t, Silent, Goto(st, t, WantHit(op, i)).(bufferLock := None), true);
      } else if i + 1 < CACHE_SIZE {
        assert Next(st, t, Silent, Goto(st, t, FindScan(op, i + 1)), true);
      } else {
        assert Next(st, t, Silent, Goto(st, t, WantNext(op)).(bufferLock := None), true);
      }
    case NextScan(op, i) =>
      var cleared := st.(entries := st.entries[i := st.entries[i].(accessed := false)]);
      if !st.entries[i].accessed {
        assert Next(st, t, Silent, Goto(st, t, WantVictim(op, i)).(bufferLock := None), true);
      } else if i + 1 < CACHE_SIZE {
        assert Next(st, t, Silent, Goto(cleared, t, NextScan(op, i + 1)), true);
      } else {
        assert Next(st, t, Silent, Goto(cleared, t, WantVictim(op, i)).(bufferLock := None), true);
      }
  }

  lemma HolderMoves(st: State, mem: seq<Sector>, t: nat)
    requires Inv(st, mem) && t < |st.pcs| && Holds(st.pcs[t]).Some?
    ensures CanStep(st, t)
  {
    assert WfPc(st.pcs[t], |st.disk|);
    if st.pcs[t].CheckVictim? || st.pcs[t].SaveHold? {
      WriteBackHasSector(st, mem, t);
    }
    hide Inv, WriteBack, Touched, Shown;
    match st.pcs[t]
    case CheckHit(op, i) =>
      if st.entries[i].sector == op.sector {
        assert Next(st, t, Silent, Goto(st, t, Using(op, i)), true);
      } else {
        assert Next(st, t, Silent, Goto(st, t, WantFind(op)).(locks := st.locks[i := None]), true);
      }
    case CheckVictim(op, i) =>
      if st.entries[i].accessed {
        assert Next(st, t, Silent, Goto(st, t, WantNext(op)).(locks := st.locks[i := None]), true);
      } else {
        assert Next(st, t, Silent, Goto(WriteBack(st, i), t, Flushed(op, i)), true);
      }
    case Flushed(op, i) =>
      assert Next(st, t, Silent, Goto(st, t, Filling(op, i)).(entries := st.entries[i := st.entries[i].(sector := op.sector)]), true);
    case Filling(op, i) =>
      assert Next(st, t, Silent, Goto(st, t, Using(op, i)).(entries := st.entries[i := st.entries[i].(data := st.disk[op.sector])]), true);
    case Using(op, i) =>
      assert Next(st, t, Shown(op, st.entries[i]), Goto(st, t, Done(op, i)).(entries := st.entries[i := Touched(op, st.entries[i])]), true);
    case Done(op, i) => assert Next(st, t, Silent, Goto(st, t, Idle).(locks := st.locks[i := None]), true);
    case SaveHold(i) => assert Next(st, t, Silent, Goto(WriteBack(st, i), t, SaveDone(i)), true);
    case SaveDone(i) =>
      assert Next(st, t, Silent, Goto(st, t, if i + 1 < CACHE_SIZE then SaveWant(i + 1) else Idle).(locks := st.locks[i := None]), true);
  }

  /** Who holds the lock that keeps thread t waiting. */
  function Holder(st: State, t: nat): Option<nat>
    requires Wf(st) && t < |st.pcs|
  {
    match st.pcs[t]
    case WantFind(_) => st.bufferLock
    case WantNext(_) => st.bufferLock
    case WantHit(_, i) => assert WfPc(st.pcs[t], |st.disk|); st.locks[i]
    case WantVictim(_, i) => assert WfPc(st.pcs[t], |st.disk|); st.locks[i]
    case SaveWant(i) => assert WfPc(st.pcs[t], |st.disk|); st.locks[i]
    case _ => None
  }

  /**
   No deadlock: in every interleaving a thread in the middle of an operation can go on, or another one holds the
   lock it waits for, and that one can go on.
   */
  lemma NobodyIsStuck(states: seq<State>, who: seq<nat>, evs: seq<Event>, n: nat, t: nat)
    requires Run(states, who, evs) && n < |states| && t < |states[n].pcs| && states[n].pcs[t] != Idle
    ensures Wf(states[n])
    ensures
      || CanStep(states[n], t)
      || (Holder(states[n], t).Some? && Holder(states[n], t) != Some(t) && CanStep(states[n], Holder(states[n], t).value))
  {
    var st, mem := states[n], CacheProtocol.Replay(states[0].disk, evs[..n]);
    RunsKeepInv(states, who, evs, n);
    CacheDuplicates.RunsKeepBuffer(states, who, evs, n);
    assert Wf(st) && LocksOk(st) && CacheDuplicates.BufferOk(st);
    hide Run, Next, Inv, CanStep, CacheProtocol.Replay;
    if Holds(st.pcs[t]).Some? {
      HolderMoves(st, mem, t);
    } else if st.pcs[t].FindScan? || st.pcs[t].NextScan? {
      ScannerMoves(st, t);
    } else {
      assert WfPc(st.pcs[t], |st.disk|);
      var u := Holder(st, t);
      if u == None {
        WaiterMoves(st, t);
      } else if st.pcs[t].WantFind? || st.pcs[t].WantNext? {
        ScannerMoves(st, u.value);
      } else {
        HolderMoves(st, mem, u.value);
      }
    }
  }

  // ---------------------------------------------------------------- what completes is what was begun

  /** What a step shows, in terms of the request it serves. */
  ghost predicate Answers(ev: Event, op: Request) {
    match op
    case ReadReq(s, offset, size) => ev.DidRead? && ev.sector == s && ev.offset == offset && |ev.bytes| == size
    case WriteReq(s, offset, data) => ev == DidWrite(s, offset, data)
    case ZeroReq(s) => ev == DidWrite(s, 0, ZeroSector())
  }

  /** Thread t has been at this request since step j of the run. */
  ghost predicate BusySince(states: seq<State>, j: nat, n: nat, t: nat, op: Request) {
    && j < n < |states| && t < |states[j].pcs| && states[j].pcs[t] == Idle
    && t < |states[j + 1].pcs| && states[j + 1].pcs[t] == WantFind(op)
    && forall k :: j < k <= n ==> t < |states[k].pcs| && InFlight(states[k].pcs[t]) && states[k].pcs[t].op == op
  }

  lemma StepOfRun(states: seq<State>, who: seq<nat>, evs: seq<Event>, n: nat)
    requires Run(states, who, evs) && n < |evs|
    ensures |states| == |evs| + 1 == |who| + 1 && Wf(states[n]) && who[n] < |states[n].pcs|
    ensures Next(states[n], who[n], evs[n], states[n + 1], true)
  {
  }

  lemma StepKeepsRequest(st: State, t: nat, ev: Event, st': State, u: nat)
    requires Wf(st) && t < |st.pcs| && Next(st, t, ev, st', true) && u < |st'.pcs| && InFlight(st'.pcs[u])
    ensures u < |st.pcs|
    ensures
      || (InFlight(st.pcs[u]) && st.pcs[u].op == st'.pcs[u].op)
      || (st.pcs[u] == Idle && st'.pcs[u] == WantFind(st'.pcs[u].op))
  {
    NextMovesThread(st, t, ev, st', true);
  }

  lemma BusyLonger(states: seq<State>, j: nat, n: nat, t: nat, op: Request)
    requires BusySince(states, j, n, t, op) && n + 1 < |states|
    requires t < |states[n + 1].pcs| && InFlight(states[n + 1].pcs[t]) && states[n + 1].pcs[t].op == op
    ensures BusySince(states, j, n + 1, t, op)
  {
    hide InFlight;
  }

  lemma BusyNow(states: seq<State>, n: nat, t: nat, op: Request)
    requires n + 1 < |states| && t < |states[n].pcs| && states[n].pcs[t] == Idle
    requires t < |states[n + 1].pcs| && states[n + 1].pcs[t] == WantFind(op)
    ensures BusySince(states, n, n + 1, t, op)
  {
  }

  lemma NoneAtStart(states: seq<State>, who: seq<nat>, evs: seq<Event>, t: nat)
    requires Run(states, who, evs) && t < |states[0].pcs|
    ensures !InFlight(states[0].pcs[t])
  {
    assert states[0].pcs[t] == Idle;
  }

  lemma {:induction false} RequestWasBegun(states: seq<State>, who: seq<nat>, evs: seq<Event>, n: nat, t: nat) returns (j: nat)
    requires Run(states, who, evs) && n < |states| && t < |states[n].pcs| && InFlight(states[n].pcs[t])
    ensures BusySince(states, j, n, t, states[n].pcs[t].op)
    decreases n
  {
    if n == 0 {
      NoneAtStart(states, who, evs, t);
    } else {
      StepOfRun(states, who, evs, n - 1);
      StepKeepsRequest(states[n - 1], who[n - 1], evs[n - 1], states[n], t);
      hide Run, Next, Wf, BusySince;
      if InFlight(states[n - 1].pcs[t]) && states[n - 1].pcs[t].op == states[n].pcs[t].op {
        j := RequestWasBegun(states, who, evs, n - 1, t);
        BusyLonger(states, j, n - 1, t, states[n].pcs[t].op);
      } else {
        j := n - 1;
        BusyNow(states, n - 1, t, states[n].pcs[t].op);
      }
    }
  }

  /** In every interleaving what a step shows answers the request its thread began, and has been at since. */
  lemma ShowsItsRequest(states: seq<State>, who: seq<nat>, evs: seq<Event>, n: nat) returns (j: nat, op: Request)
    requires Run(states, who, evs) && n < |evs| && evs[n] != Silent
    ensures BusySince(states, j, n, who[n], op) && Answers(evs[n], op)
  {
    StepOfRun(states, who, evs, n);
    var pc := states[n].pcs[who[n]];
    assert pc.Using?;
    j := RequestWasBegun(states, who, evs, n, who[n]);
    op := pc.op;
  }
}
