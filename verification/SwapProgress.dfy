/**
 That the interleavings of module SwapProtocol get somewhere: only a thread that has failed, or that waits for the
 table lock behind one that can go on or has failed holding it, cannot take a step; and what a swap_out reports is
 the page it was given.
 */
module SwapProgress {
  import opened Machine
  import opened Swap
  import opened SwapProtocol

  ghost predicate CanStep(st: State, t: nat) {
    t < |st.pcs| && exists ev, st' :: Next(st, t, ev, st')
  }

  /** A null pointer followed, an empty list popped, or a transfer past the end of the device. */
  predicate Failed(pc: Pc) { pc.NullSlot? || pc.EmptyPop? || pc.PastEnd? }

  predicate HasLock(pc: Pc) { pc.HoldNew? || pc.HoldPop? || pc.HoldPut? || pc.EmptyPop? }

  ghost predicate LockOk(st: State) {
    && (forall t :: 0 <= t < |st.pcs| ==> (HasLock(st.pcs[t]) <==> st.lock == Some(t)))
    && (st.lock.Some? ==> st.lock.value < |st.pcs|)
  }

  lemma LockKept(st: State, t: nat, ev: Event, st': State)
    requires LockOk(st) && t < |st.pcs| && Next(st, t, ev, st')
    ensures LockOk(st')
  {
  }

  lemma StepOfRun(states: seq<State>, who: seq<nat>, evs: seq<Event>, n: nat)
    requires SwapProtocol.Run(states, who, evs) && n < |evs|
    ensures |states| == |evs| + 1 == |who| + 1 && who[n] < |states[n].pcs| && Next(states[n], who[n], evs[n], states[n + 1])
  {
  }

  /** Over every interleaving the table lock is held exactly by the thread that is between taking and releasing it. */
  lemma {:induction false} RunsKeepLock(states: seq<State>, who: seq<nat>, evs: seq<Event>, n: nat)
    requires SwapProtocol.Run(states, who, evs) && n < |states|
    ensures LockOk(states[n])
    decreases n
  {
    if n > 0 {
      StepOfRun(states, who, evs, n - 1);
      hide SwapProtocol.Run, Next, LockOk;
      RunsKeepLock(states, who, evs, n - 1);
      LockKept(states[n - 1], who[n - 1], evs[n - 1], states[n]);
    }
  }

  lemma HolderMoves(st: State, saved: map<nat, Page>, t: nat)
    requires Inv(st, saved) && t < |st.pcs| && (st.pcs[t].HoldNew? || st.pcs[t].HoldPop? || st.pcs[t].HoldPut?)
    ensures CanStep(st, t)
  {
    match st.pcs[t]
    case HoldNew(page) =>
      assert Next(st, t, Silent, Goto(Occupy(st, st.nextSector), t, Writing(st.nextSector, page, 0)).(
                    nextSector := st.nextSector + SLOT_SECTORS, lock := None));
    case HoldPop(page) =>
      if st.free == [] {
        assert Next(st, t, Silent, Goto(st, t, EmptyPop));
      } else {
        assert Next(st, t, Silent, Goto(Occupy(st, st.free[0]), t, Writing(st.free[0], page, 0)).(free := st.free[1..], lock := None));
      }
    case HoldPut(x) =>
      assert Uses(st.pcs[t]) == Some(x) && x in st.occupied;
      var k :| 0 <= k < |st.occupied| && st.occupied[k] == x;
      assert Next(st, t, Silent, Goto(st, t, Idle).(occupied := RemoveAt(st.occupied, k), free := st.free + [x], lock := None));
  }

  lemma WaiterMoves(st: State, t: nat)
    requires t < |st.pcs| && (st.pcs[t].WantNew? || st.pcs[t].WantPop? || st.pcs[t].WantPut?) && st.lock == None
    ensures CanStep(st, t)
  {
    match st.pcs[t]
    case WantNew(page) => assert Next(st, t, Silent, Goto(st, t, HoldNew(page)).(lock := Some(t)));
    case WantPop(page) => assert Next(st, t, Silent, Goto(st, t, HoldPop(page)).(lock := Some(t)));
    case WantPut(x) => assert Next(st, t, Silent, Goto(st, t, HoldPut(x)).(lock := Some(t)));
  }

  lemma FreeMoves(st: State, saved: map<nat, Page>, t: nat)
    requires Inv(st, saved) && t < |st.pcs|
    requires st.pcs[t].TestFree? || st.pcs[t].TestSize? || st.pcs[t].Writing? || st.pcs[t].Reading?
    ensures CanStep(st, t)
  {
    assert DataOk(st.device, saved, st.pcs[t]);
    match st.pcs[t]
    case TestFree(page) => assert Next(st, t, Silent, Goto(st, t, if st.free == [] then TestSize(page) else WantPop(page)));
    case TestSize(page) =>
      assert Next(st, t, Silent, Goto(st, t, if st.nextSector >= |st.device| then NullSlot else WantNew(page)));
    case Writing(x, page, i) =>
      if i >= SLOT_SECTORS {
        assert Next(st, t, DidOut(x, page), Goto(st, t, Idle).(live := st.live + {x}));
      } else if x + i >= |st.device| {
        assert Next(st, t, Silent, Goto(st, t, PastEnd(x)));
      } else {
        assert Next(st, t, Silent, Goto(st, t, Writing(x, page, i + 1)).(device := st.device[x + i := Part(page, i)]));
      }
    case Reading(x, bytes) =>
      var i := |bytes| / SECTOR_SIZE;
      if |bytes| >= PAGE_SIZE {
        assert Next(st, t, DidIn(x, bytes), Goto(st, t, WantPut(x)));
      } else if x + i >= |st.device| {
        assert Next(st, t, Silent, Goto(st, t, PastEnd(x)));
      } else {
        assert Next(st, t, Silent, Goto(st, t, Reading(x, bytes + st.device[x + i])));
      }
  }

  /**
   Over every interleaving: a thread in the middle of an operation that has not failed can go on, unless it waits
   for the table lock; then the thread that has the lock can go on, or has failed with it.
   */
  lemma NobodyIsStuck(states: seq<State>, who: seq<nat>, evs: seq<Event>, n: nat, t: nat)
    requires SwapProtocol.Run(states, who, evs) && n < |states| && t < |states[n].pcs|
    requires states[n].pcs[t] != Idle && !Failed(states[n].pcs[t])
    ensures
      || CanStep(states[n], t)
      || (&& states[n].lock.Some? && states[n].lock.value < |states[n].pcs| && states[n].lock != Some(t)
          && (CanStep(states[n], states[n].lock.value) || states[n].pcs[states[n].lock.value].EmptyPop?))
  {
    var st, saved := states[n], Replay(evs[..n]);
    RunsKeepInv(states, who, evs, n);
    RunsKeepLock(states, who, evs, n);
    hide SwapProtocol.Run, Next, Inv, CanStep, Replay;
    if st.pcs[t].HoldNew? || st.pcs[t].HoldPop? || st.pcs[t].HoldPut? {
      HolderMoves(st, saved, t);
    } else if st.pcs[t].WantNew? || st.pcs[t].WantPop? || st.pcs[t].WantPut? {
      if st.lock == None {
        WaiterMoves(st, t);
      } else if !st.pcs[st.lock.value].EmptyPop? {
        HolderMoves(st, saved, st.lock.value);
      }
    } else {
      FreeMoves(st, saved, t);
    }
  }

  // ---------------------------------------------------------------- what completes is what was begun

  /** The page a swap_out under way is to save. */
  function PageOf(pc: Pc): Option<Page> {
    match pc
    case TestFree(page) => Some(page)
    case TestSize(page) => Some(page)
    case WantNew(page) => Some(page)
    case HoldNew(page) => Some(page)
    case WantPop(page) => Some(page)
    case HoldPop(page) => Some(page)
    case Writing(_, page, _) => Some(page)
    case _ => None
  }

  /** Thread t has been at a swap_out of this page since step j of the run. */
  ghost predicate OutSince(states: seq<State>, j: nat, n: nat, t: nat, page: Page) {
    && j < n < |states| && t < |states[j].pcs| && states[j].pcs[t] == Idle
    && t < |states[j + 1].pcs| && states[j + 1].pcs[t] == TestFree(page)
    && forall k :: j < k <= n ==> t < |states[k].pcs| && PageOf(states[k].pcs[t]) == Some(page)
  }

  lemma StepKeepsPage(st: State, t: nat, ev: Event, st': State, u: nat)
    requires t < |st.pcs| && Next(st, t, ev, st') && u < |st'.pcs| && PageOf(st'.pcs[u]).Some?
    ensures u < |st.pcs|
    ensures
      || PageOf(st.pcs[u]) == PageOf(st'.pcs[u])
      || (st.pcs[u] == Idle && st'.pcs[u] == TestFree(PageOf(st'.pcs[u]).value))
  {
  }

  lemma {:induction false} PageWasGiven(states: seq<State>, who: seq<nat>, evs: seq<Event>, n: nat, t: nat) returns (j: nat)
    requires SwapProtocol.Run(states, who, evs) && n < |states| && t < |states[n].pcs| && PageOf(states[n].pcs[t]).Some?
    ensures OutSince(states, j, n, t, PageOf(states[n].pcs[t]).value)
    decreases n
  {
    if n == 0 {
      assert false;
    } else {
      StepOfRun(states, who, evs, n - 1);
      StepKeepsPage(states[n - 1], who[n - 1], evs[n - 1], states[n], t);
      hide SwapProtocol.Run, Next;
      if PageOf(states[n - 1].pcs[t]) == PageOf(states[n].pcs[t]) {
        j := PageWasGiven(states, who, evs, n - 1, t);
      } else {
        j := n - 1;
      }
    }
  }

  /** Over every interleaving: the page a swap_out reports as saved is the one it was called with. */
  lemma OutSavesItsPage(states: seq<State>, who: seq<nat>, evs: seq<Event>, n: nat) returns (j: nat)
    requires SwapProtocol.Run(states, who, evs) && n < |evs| && evs[n].DidOut?
    ensures OutSince(states, j, n, who[n], evs[n].page)
  {
    StepOfRun(states, who, evs, n);
    assert PageOf(states[n].pcs[who[n]]) == Some(evs[n].page);
    j := PageWasGiven(states, who, evs, n, who[n]);
  }
}
