/**
 What the unlocked tests of get_slot (virtual-memory/vm/swap.c:36-37) cost: next_sector can run ahead of the
 peak use, list_pop_front can meet an empty list, and a slot can be issued past the end of the device.
 For two operations begun on an idle swap table, each happens in some interleaving exactly when a condition
 on the table holds beforehand.
 */
module SwapRaces {
  import opened Machine
  import opened Reachability
  import opened Swap
  import opened SwapProtocol

  /** One step of a thread that is inside an operation: nobody begins a new one. */
  ghost predicate WorkingStep(st: State, st': State) {
    exists t: nat, ev: Event :: t < |st.pcs| && st.pcs[t] != Idle && Next(st, t, ev, st')
  }

  ghost function Working(): (State, State) -> bool {
    (a: State, b: State) => WorkingStep(a, b)
  }

  /** Some interleaving of what is under way in a leads to st. */
  ghost predicate Reachable(a: State, st: State) {
    exists n: nat :: Reaches(Working(), a, n, st)
  }

  lemma Began(a: State)
    ensures Reachable(a, a)
  {
    assert Reaches(Working(), a, 0, a);
  }

  lemma Took(a: State, st: State, t: nat, ev: Event, st': State)
    requires Reachable(a, st) && t < |st.pcs| && st.pcs[t] != Idle && Next(st, t, ev, st')
    ensures Reachable(a, st')
  {
    var n: nat :| Reaches(Working(), a, n, st);
    assert WorkingStep(st, st');
    ThenStep(Working(), a, n, st, st');
  }

  /** A property that every step keeps holds wherever what is under way leads. */
  lemma AlwaysKept(inv: State -> bool, a: State)
    requires inv(a) && forall x: State, y: State :: inv(x) && WorkingStep(x, y) ==> inv(y)
    ensures forall b: State :: Reachable(a, b) ==> inv(b)
  {
    forall b: State | Reachable(a, b) ensures inv(b) {
      var n: nat :| Reaches(Working(), a, n, b);
      RunsKeep(Working(), inv, a, n, b);
    }
  }

  ghost predicate Sound(st: State) {
    exists saved: map<nat, Page> :: Inv(st, saved)
  }

  lemma SoundKept(x: State, t: nat, ev: Event, y: State)
    requires Sound(x) && t < |x.pcs| && Next(x, t, ev, y)
    ensures Sound(y)
  {
    var saved: map<nat, Page> :| Inv(x, saved);
    StepKeeps(x, saved, t, ev, y);
  }

  /** Nobody is inside an operation. */
  ghost predicate Quiet(st: State) {
    Sound(st) && st.lock == None && forall t :: 0 <= t < |st.pcs| ==> st.pcs[t] == Idle
  }

  /** All threads but two are idle. */
  ghost predicate OnlyTwo(st: State, t: nat, u: nat) {
    && t < |st.pcs| && u < |st.pcs| && t != u
    && forall v :: 0 <= v < |st.pcs| && v != t && v != u ==> st.pcs[v] == Idle
  }

  lemma OnlyTwoKept(x: State, v: nat, ev: Event, y: State, t: nat, u: nat)
    requires OnlyTwo(x, t, u) && v < |x.pcs| && x.pcs[v] != Idle && Next(x, v, ev, y)
    ensures (v == t || v == u) && OnlyTwo(y, t, u) && y.pcs == x.pcs[v := y.pcs[v]]
  {
  }

  // ---------------------------------------------------------------- next_sector and the peak

  /** next_sector counts the most slots that were ever occupied at once. */
  ghost predicate PeakOk(st: State) { st.nextSector == st.peak * SLOT_SECTORS }

  /** Thread t issues a new slot although one has become free since it looked. */
  ghost predicate LateIssue(st: State, t: nat)
    requires t < |st.pcs|
  {
    st.pcs[t].HoldNew? && st.free != []
  }

  lemma StepPeakIff(st: State, t: nat, ev: Event, st': State)
    requires ListsOk(st) && PeakOk(st) && t < |st.pcs| && Next(st, t, ev, st')
    ensures PeakOk(st') <==> !LateIssue(st, t)
  {
  }

  /** Along a run next_sector is the peak throughout exactly if no slot is issued late. */
  lemma {:induction false} RunsPeakIff(states: seq<State>, who: seq<nat>, evs: seq<Event>, n: nat)
    requires SwapProtocol.Run(states, who, evs) && n < |states|
    ensures (forall k :: 0 <= k <= n ==> PeakOk(states[k])) <==>
            (forall k :: 0 <= k < n ==> who[k] < |states[k].pcs| && !LateIssue(states[k], who[k]))
    decreases n
  {
    hide Next, Inv;
    if n > 0 {
      RunsPeakIff(states, who, evs, n - 1);
      RunStepPeakIff(states, who, evs, n - 1);
    }
  }

  lemma RunStepPeakIff(states: seq<State>, who: seq<nat>, evs: seq<Event>, k: nat)
    requires SwapProtocol.Run(states, who, evs) && k < |evs|
    ensures who[k] < |states[k].pcs|
    ensures PeakOk(states[k]) ==> (PeakOk(states[k + 1]) <==> !LateIssue(states[k], who[k]))
  {
    RunsKeepInv(states, who, evs, k);
    if PeakOk(states[k]) {
      StepPeakIff(states[k], who[k], evs[k], states[k + 1]);
    }
  }

  // ---------------------------------------------------------------- two swap_outs at once

  function TwoOuts(st: State, t: nat, u: nat, p: Page, q: Page): State
    requires t < |st.pcs| && u < |st.pcs|
  {
    Goto(Goto(st, t, TestFree(p)), u, TestFree(q))
  }

  /** No interleaving of what is under way pops an empty list. */
  ghost predicate NeverPopsEmpty(a: State) {
    forall b: State, v: nat :: Reachable(a, b) && v < |b.pcs| ==> b.pcs[v] != EmptyPop
  }

  /** How many slots a thread may still pop. */
  function Claim(pc: Pc): nat { if pc.TestFree? || pc.WantPop? || pc.HoldPop? then 1 else 0 }

  /** There is a free slot for each. */
  ghost predicate Enough(st: State, t: nat, u: nat) {
    && OnlyTwo(st, t, u) && |st.free| >= Claim(st.pcs[t]) + Claim(st.pcs[u])
    && (forall v :: v == t || v == u ==>
          var pc := st.pcs[v]; Claim(pc) == 1 || pc.Writing? || pc.PastEnd? || pc.Idle?)
  }

  lemma EnoughKept(x: State, y: State, t: nat, u: nat)
    requires Enough(x, t, u) && WorkingStep(x, y)
    ensures Enough(y, t, u)
  {
    var v: nat, ev: Event :| v < |x.pcs| && x.pcs[v] != Idle && Next(x, v, ev, y);
    OnlyTwoKept(x, v, ev, y, t, u);
  }

  /** There is no free slot, and nobody tries to pop one. */
  ghost predicate NoneFree(st: State, t: nat, u: nat) {
    && OnlyTwo(st, t, u) && st.free == []
    && OutPc(st.pcs[t]) && OutPc(st.pcs[u])
  }

  /** Where a swap_out can be that has not seen a free slot. */
  ghost predicate OutPc(pc: Pc) {
    pc.TestFree? || pc.TestSize? || pc.WantNew? || pc.HoldNew? || pc.NullSlot? || pc.Writing? || pc.PastEnd? || pc.Idle?
  }

  lemma NoneFreeKept(x: State, y: State, t: nat, u: nat)
    requires NoneFree(x, t, u) && WorkingStep(x, y)
    ensures NoneFree(y, t, u)
  {
    var v: nat, ev: Event :| v < |x.pcs| && x.pcs[v] != Idle && Next(x, v, ev, y);
    OnlyTwoKept(x, v, ev, y, t, u);
  }

  /** Both threads see the free slot. */
  lemma BothSeeFree(st: State, t: nat, u: nat, p: Page, q: Page) returns (st': State)
    requires Quiet(st) && t < |st.pcs| && u < |st.pcs| && t != u && st.free != []
    ensures Reachable(TwoOuts(st, t, u, p, q), st') && st' == Goto(Goto(st, t, WantPop(p)), u, WantPop(q))
  {
    var a := TwoOuts(st, t, u, p, q);
    var b := Goto(a, t, WantPop(p));
    st' := Goto(b, u, WantPop(q));
    Began(a);
    Took(a, a, t, Silent, b);
    Took(a, b, u, Silent, st');
  }

  /** One thread pops the only free slot. */
  lemma PopsLast(a: State, st: State, t: nat, p: Page) returns (st': State)
    requires Reachable(a, st) && t < |st.pcs| && st.pcs[t] == WantPop(p) && st.lock == None && |st.free| == 1
    ensures Reachable(a, st') && st'.free == [] && st'.lock == None && st'.pcs == st.pcs[t := Writing(st.free[0], p, 0)]
  {
    var b := Goto(st, t, HoldPop(p)).(lock := Some(t));
    st' := Goto(Occupy(b, b.free[0]), t, Writing(b.free[0], p, 0)).(free := b.free[1..], lock := None);
    Took(a, st, t, Silent, b);
    Took(a, b, t, Silent, st');
  }

  lemma PopsNothing(a: State, st: State, u: nat, q: Page) returns (bad: State)
    requires Reachable(a, st) && u < |st.pcs| && st.pcs[u] == WantPop(q) && st.lock == None && st.free == []
    ensures Reachable(a, bad) && u < |bad.pcs| && bad.pcs[u] == EmptyPop
  {
    var b := Goto(st, u, HoldPop(q)).(lock := Some(u));
    bad := Goto(b, u, EmptyPop);
    Took(a, st, u, Silent, b);
    Took(a, b, u, Silent, bad);
  }

  /** Two swap_outs begun on an idle table can meet an empty list exactly when one slot is free beforehand. */
  lemma OutsPopIff(st: State, t: nat, u: nat, p: Page, q: Page)
    requires Quiet(st) && t < |st.pcs| && u < |st.pcs| && t != u
    ensures NeverPopsEmpty(TwoOuts(st, t, u, p, q)) <==> |st.free| != 1
  {
    var a := TwoOuts(st, t, u, p, q);
    if |st.free| == 1 {
      var b := BothSeeFree(st, t, u, p, q);
      var c := PopsLast(a, b, t, p);
      var bad := PopsNothing(a, c, u, q);
    } else if |st.free| >= 2 {
      forall x: State, y: State | Enough(x, t, u) && WorkingStep(x, y) ensures Enough(y, t, u) {
        EnoughKept(x, y, t, u);
      }
      AlwaysKept(x => Enough(x, t, u), a);
      assert forall b: State, v :: Enough(b, t, u) && 0 <= v < |b.pcs| ==> b.pcs[v] != EmptyPop;
    } else {
      forall x: State, y: State | NoneFree(x, t, u) && WorkingStep(x, y) ensures NoneFree(y, t, u) {
        NoneFreeKept(x, y, t, u);
      }
      AlwaysKept(x => NoneFree(x, t, u), a);
      assert forall b: State, v :: NoneFree(b, t, u) && 0 <= v < |b.pcs| ==> b.pcs[v] != EmptyPop;
    }
  }

  // ---------------------------------------------------------------- a swap_out and a swap_in at once

  function OutAndIn(st: State, t: nat, u: nat, p: Page, x: nat): State
    requires t < |st.pcs| && u < |st.pcs|
  {
    Goto(Goto(st, t, TestFree(p)), u, Reading(x, [])).(live := st.live - {x})
  }

  /** next_sector is the peak in every interleaving of what is under way. */
  ghost predicate KeepsPeak(a: State) {
    forall b: State :: Reachable(a, b) ==> PeakOk(b)
  }

  /** Thread t will not issue a slot: one is free, or there is no room for another. */
  ghost predicate NoIssue(st: State, t: nat, u: nat) {
    && OnlyTwo(st, t, u) && PeakOk(st)
    && var pc, qc := st.pcs[t], st.pcs[u];
       && !(pc.WantNew? || pc.HoldNew?) && (pc.TestFree? || pc.TestSize? ==> NoRoom(st) || (pc.TestFree? && st.free != []))
       && (qc.Reading? || qc.WantPut? || qc.HoldPut? || qc.PastEnd? || qc.Idle?)
       && !(pc.Reading? || pc.WantPut? || pc.HoldPut?)
  }

  ghost predicate NoRoom(st: State) { st.nextSector >= |st.device| }

  lemma NoIssueStep(x: State, v: nat, ev: Event, y: State, t: nat, u: nat)
    requires NoIssue(x, t, u) && v < |x.pcs| && x.pcs[v] != Idle && Next(x, v, ev, y) && PeakOk(y)
    ensures NoIssue(y, t, u)
  {
    OnlyTwoKept(x, v, ev, y, t, u);
  }

  lemma NoIssueKept(x: State, y: State, t: nat, u: nat)
    requires Sound(x) && NoIssue(x, t, u) && WorkingStep(x, y)
    ensures Sound(y) && NoIssue(y, t, u)
  {
    var v: nat, ev: Event :| v < |x.pcs| && x.pcs[v] != Idle && Next(x, v, ev, y);
    OnlyTwoMoves(x, v, t, u);
    SoundKept(x, v, ev, y);
    StepPeakIff(x, v, ev, y);
    hide Next, Sound;
    NoIssueStep(x, v, ev, y, t, u);
  }

  lemma OnlyTwoMoves(x: State, v: nat, t: nat, u: nat)
    requires OnlyTwo(x, t, u) && v < |x.pcs| && x.pcs[v] != Idle
    ensures v == t || v == u
  {
  }

  /** The block reads of swap_in, one after the other. */
  lemma {:induction false} ReadsAll(a: State, st: State, saved: map<nat, Page>, u: nat, x: nat, bytes: seq<byte>)
    returns (bytes': seq<byte>, st': State)
    requires Reachable(a, st) && Inv(st, saved) && u < |st.pcs| && st.pcs[u] == Reading(x, bytes) && |bytes| <= PAGE_SIZE
    ensures |bytes'| == PAGE_SIZE && st' == Goto(st, u, Reading(x, bytes')) && Reachable(a, st') && Inv(st', saved)
    decreases PAGE_SIZE - |bytes|
  {
    hide Inv, Reachable;
    if |bytes| == PAGE_SIZE {
      bytes', st' := bytes, st;
    } else {
      ReadInside(st, saved, u, x, bytes);
      var more := bytes + st.device[x + |bytes| / SECTOR_SIZE];
      var next := Goto(st, u, Reading(x, more));
      ReadKeeps(st, saved, u, x, bytes, next);
      Took(a, st, u, Silent, next);
      bytes', st' := ReadsAll(a, next, saved, u, x, more);
    }
  }

  /** The rest of swap_in: the slot is free. */
  lemma PutsBack(a: State, st: State, saved: map<nat, Page>, u: nat, x: nat, bytes: seq<byte>) returns (st': State)
    requires Reachable(a, st) && Inv(st, saved) && st.lock == None
    requires u < |st.pcs| && st.pcs[u] == Reading(x, bytes) && |bytes| == PAGE_SIZE
    ensures Reachable(a, st') && Inv(st', saved) && x in st'.free
    ensures st'.pcs == st.pcs[u := Idle] && st'.lock == None && st'.nextSector == st.nextSector && st'.peak == st.peak
  {
    assert Uses(st.pcs[u]) == Some(x);
    var k :| 0 <= k < |st.occupied| && st.occupied[k] == x;
    hide Inv, Reachable;
    var b := Goto(st, u, WantPut(x));
    var c := Goto(b, u, HoldPut(x)).(lock := Some(u));
    st' := Goto(c, u, Idle).(occupied := RemoveAt(c.occupied, k), free := c.free + [x], lock := None);
    StepKeeps(st, saved, u, DidIn(x, bytes), b);
    StepKeeps(b, saved, u, Silent, c);
    PutKeeps(c, saved, u, k, st');
    Took(a, st, u, DidIn(x, bytes), b);
    Took(a, b, u, Silent, c);
    Took(a, c, u, Silent, st');
  }

  lemma SwapsIn(a: State, st: State, saved: map<nat, Page>, u: nat, x: nat) returns (st': State)
    requires Reachable(a, st) && Inv(st, saved) && u < |st.pcs| && st.pcs[u] == Reading(x, []) && st.lock == None
    ensures Reachable(a, st') && Inv(st', saved) && x in st'.free
    ensures st'.pcs == st.pcs[u := Idle] && st'.lock == None && st'.nextSector == st.nextSector && st'.peak == st.peak
  {
    hide Inv, Reachable;
    var bytes, b := ReadsAll(a, st, saved, u, x, []);
    st' := PutsBack(a, b, saved, u, x, bytes);
  }

  lemma OutAndInBegin(st: State, saved: map<nat, Page>, t: nat, u: nat, p: Page, x: nat)
    requires Inv(st, saved) && t < |st.pcs| && u < |st.pcs| && t != u && st.pcs[t] == st.pcs[u] == Idle && x in st.live
    ensures Inv(OutAndIn(st, t, u, p, x), saved)
  {
    hide Inv;
    var i0 := Goto(st, t, TestFree(p));
    StepKeeps(st, saved, t, Silent, i0);
    StepKeeps(i0, saved, u, Silent, OutAndIn(st, t, u, p, x));
  }

  /** swap_out finds nothing free, and room for another slot. */
  lemma SeesRoom(a: State, st: State, saved: map<nat, Page>, t: nat, p: Page) returns (st': State)
    requires Reachable(a, st) && Inv(st, saved) && t < |st.pcs| && st.pcs[t] == TestFree(p)
    requires st.free == [] && st.nextSector < |st.device|
    ensures Reachable(a, st') && Inv(st', saved) && st' == Goto(st, t, WantNew(p))
  {
    hide Inv, Reachable;
    var b := Goto(st, t, TestSize(p));
    st' := Goto(b, t, WantNew(p));
    StepKeeps(st, saved, t, Silent, b);
    StepKeeps(b, saved, t, Silent, st');
    Took(a, st, t, Silent, b);
    Took(a, b, t, Silent, st');
  }

  /** The stale decision is carried out. */
  lemma IssuesLate(a: State, st: State, saved: map<nat, Page>, t: nat, p: Page) returns (bad: State)
    requires Reachable(a, st) && Inv(st, saved) && t < |st.pcs| && st.pcs[t] == WantNew(p) && st.lock == None
    requires PeakOk(st) && st.free != []
    ensures Reachable(a, bad) && !PeakOk(bad)
  {
    assert ListsOk(st);
    hide Inv, Reachable, ListsOk;
    bad := Issues(a, st, t, p);
    var b := Goto(st, t, HoldNew(p)).(lock := Some(t));
    assert ListsOk(b) by { SameLists(st, b); }
    StepPeakIff(b, t, Silent, bad);
  }

  lemma SameLists(st: State, b: State)
    requires ListsOk(st) && b == st.(pcs := b.pcs, lock := b.lock)
    ensures ListsOk(b)
  {
  }

  /** swap_out looks, swap_in frees its slot, swap_out issues another. */
  lemma FreedBetween(st: State, t: nat, u: nat, p: Page, x: nat) returns (bad: State)
    requires Quiet(st) && t < |st.pcs| && u < |st.pcs| && t != u && x in st.live && PeakOk(st)
    requires st.free == [] && st.nextSector < |st.device|
    ensures Reachable(OutAndIn(st, t, u, p, x), bad) && !PeakOk(bad)
  {
    var saved: map<nat, Page> :| Inv(st, saved);
    var a := OutAndIn(st, t, u, p, x);
    Began(a);
    OutAndInBegin(st, saved, t, u, p, x);
    hide Inv, Reachable, Next;
    var b := SeesRoom(a, a, saved, t, p);
    var c := SwapsIn(a, b, saved, u, x);
    bad := IssuesLate(a, c, saved, t, p);
  }

  /**
   A swap_out and a swap_in begun on an idle table: next_sector is the peak in every interleaving exactly
   when a slot is free beforehand or the store has no room for another.
   */
  lemma OutAndInPeakIff(st: State, t: nat, u: nat, p: Page, x: nat)
    requires Quiet(st) && t < |st.pcs| && u < |st.pcs| && t != u && x in st.live && PeakOk(st)
    ensures KeepsPeak(OutAndIn(st, t, u, p, x)) <==> st.free != [] || st.nextSector >= |st.device|
  {
    var a := OutAndIn(st, t, u, p, x);
    if st.free == [] && st.nextSector < |st.device| {
      var bad := FreedBetween(st, t, u, p, x);
    } else {
      var saved: map<nat, Page> :| Inv(st, saved);
      OutAndInBegin(st, saved, t, u, p, x);
      assert Sound(a) && NoIssue(a, t, u);
      hide Sound;
      forall y: State, z: State | (Sound(y) && NoIssue(y, t, u)) && WorkingStep(y, z) ensures Sound(z) && NoIssue(z, t, u) {
        NoIssueKept(y, z, t, u);
      }
      AlwaysKept(y => Sound(y) && NoIssue(y, t, u), a);
    }
  }

  // ---------------------------------------------------------------- the last slot of the store

  /** No interleaving of what is under way writes past the end of the device. */
  ghost predicate StaysInside(a: State) {
    forall b: State, v: nat :: Reachable(a, b) && v < |b.pcs| ==> !b.pcs[v].PastEnd?
  }

  /** How many slots a thread may still issue. */
  function ToIssue(pc: Pc): nat { if pc.TestFree? || pc.TestSize? || pc.WantNew? || pc.HoldNew? then 1 else 0 }

  /** What a thread writes lies inside the device. */
  ghost predicate Fits(st: State, pc: Pc) {
    !pc.PastEnd? && (pc.Writing? ==> pc.slot + SLOT_SECTORS <= |st.device|)
  }

  /** There is room for every slot still to be issued, or none will be. */
  ghost predicate Room(st: State, pc: Pc, qc: Pc) {
    || st.nextSector + SLOT_SECTORS * (ToIssue(pc) + ToIssue(qc)) <= |st.device|
    || (NoRoom(st) && !pc.WantNew? && !pc.HoldNew? && !qc.WantNew? && !qc.HoldNew?)
  }

  ghost predicate RoomForAll(st: State, t: nat, u: nat) {
    && NoneFree(st, t, u) && Fits(st, st.pcs[t]) && Fits(st, st.pcs[u]) && Room(st, st.pcs[t], st.pcs[u])
  }

  /** A step of one of two swap_outs, seen from the other's side too. */
  lemma RoomStep(x: State, v: nat, ev: Event, y: State, qc: Pc)
    requires v < |x.pcs| && x.pcs[v] != Idle && Next(x, v, ev, y) && x.free == [] && OutPc(x.pcs[v])
    requires Fits(x, x.pcs[v]) && Fits(x, qc) && Room(x, x.pcs[v], qc)
    ensures v < |y.pcs| && Fits(y, y.pcs[v]) && Fits(y, qc) && Room(y, y.pcs[v], qc)
  {
  }

  lemma RoomKept(x: State, y: State, t: nat, u: nat)
    requires RoomForAll(x, t, u) && WorkingStep(x, y)
    ensures RoomForAll(y, t, u)
  {
    NoneFreeKept(x, y, t, u);
    hide Fits, Room;
    var v: nat, ev: Event :| v < |x.pcs| && x.pcs[v] != Idle && Next(x, v, ev, y);
    OnlyTwoKept(x, v, ev, y, t, u);
    RoomIsSymmetric(x, x.pcs[t], x.pcs[u]);
    RoomStep(x, v, ev, y, x.pcs[if v == t then u else t]);
    RoomIsSymmetric(y, y.pcs[t], y.pcs[u]);
  }

  lemma RoomIsSymmetric(st: State, pc: Pc, qc: Pc)
    ensures Room(st, pc, qc) <==> Room(st, qc, pc)
  {
  }

  /** Both threads find nothing free, and room. */
  lemma BothSeeRoom(st: State, t: nat, u: nat, p: Page, q: Page) returns (st': State)
    requires Quiet(st) && t < |st.pcs| && u < |st.pcs| && t != u && st.free == [] && st.nextSector < |st.device|
    ensures Reachable(TwoOuts(st, t, u, p, q), st') && st' == Goto(Goto(st, t, WantNew(p)), u, WantNew(q))
  {
    hide Reachable;
    var a := TwoOuts(st, t, u, p, q);
    var b := Goto(a, t, TestSize(p));
    var c := Goto(b, t, WantNew(p));
    var d := Goto(c, u, TestSize(q));
    st' := Goto(d, u, WantNew(q));
    Began(a);
    Took(a, a, t, Silent, b);
    Took(a, b, t, Silent, c);
    Took(a, c, u, Silent, d);
    Took(a, d, u, Silent, st');
  }

  lemma Issues(a: State, st: State, t: nat, p: Page) returns (st': State)
    requires Reachable(a, st) && t < |st.pcs| && st.pcs[t] == WantNew(p) && st.lock == None
    ensures Reachable(a, st')
    ensures st' == Goto(Occupy(st, st.nextSector), t, Writing(st.nextSector, p, 0)).(nextSector := st.nextSector + SLOT_SECTORS)
    ensures Next(Goto(st, t, HoldNew(p)).(lock := Some(t)), t, Silent, st')
  {
    hide Reachable;
    var b := Goto(st, t, HoldNew(p)).(lock := Some(t));
    st' := Goto(Occupy(b, b.nextSector), t, Writing(b.nextSector, p, 0)).(
             nextSector := b.nextSector + SLOT_SECTORS, lock := None);
    Took(a, st, t, Silent, b);
    Took(a, b, t, Silent, st');
  }

  /** With one slot left both see room, and the second slot lies past the end. */
  lemma LastSlotTwice(st: State, t: nat, u: nat, p: Page, q: Page) returns (bad: State)
    requires Quiet(st) && t < |st.pcs| && u < |st.pcs| && t != u && st.free == []
    requires st.nextSector + SLOT_SECTORS == |st.device|
    ensures Reachable(TwoOuts(st, t, u, p, q), bad) && u < |bad.pcs| && bad.pcs[u].PastEnd?
  {
    hide Reachable;
    var a := TwoOuts(st, t, u, p, q);
    var b := BothSeeRoom(st, t, u, p, q);
    var c := Issues(a, b, t, p);
    var d := Issues(a, c, u, q);
    bad := Goto(d, u, PastEnd(c.nextSector));
    Took(a, d, u, Silent, bad);
  }

  lemma RoomAtStart(st: State, t: nat, u: nat, p: Page, q: Page)
    requires Quiet(st) && t < |st.pcs| && u < |st.pcs| && t != u && st.free == []
    requires |st.device| % SLOT_SECTORS == 0 && st.nextSector + SLOT_SECTORS != |st.device|
    ensures RoomForAll(TwoOuts(st, t, u, p, q), t, u)
  {
    QuietIsAligned(st);
    hide Quiet, Sound;
    var a := TwoOuts(st, t, u, p, q);
    assert a.pcs[t].TestFree? && a.pcs[u].TestFree?;
    assert forall v :: 0 <= v < |st.pcs| && v != t && v != u ==> a.pcs[v] == st.pcs[v] == Idle;
  }

  lemma QuietIsAligned(st: State)
    requires Quiet(st)
    ensures st.nextSector % SLOT_SECTORS == 0 && forall t :: 0 <= t < |st.pcs| ==> st.pcs[t] == Idle
  {
    var saved: map<nat, Page> :| Inv(st, saved);
    assert ListsOk(st);
  }

  /** On a store of whole slots with none free, two swap_outs can write past the end exactly when one slot is left. */
  lemma OutsInsideIff(st: State, t: nat, u: nat, p: Page, q: Page)
    requires Quiet(st) && t < |st.pcs| && u < |st.pcs| && t != u && st.free == []
    requires |st.device| % SLOT_SECTORS == 0
    ensures StaysInside(TwoOuts(st, t, u, p, q)) <==> st.nextSector + SLOT_SECTORS != |st.device|
  {
    var a := TwoOuts(st, t, u, p, q);
    if st.nextSector + SLOT_SECTORS == |st.device| {
      var bad := LastSlotTwice(st, t, u, p, q);
    } else {
      RoomAtStart(st, t, u, p, q);
      forall x: State, y: State | RoomForAll(x, t, u) && WorkingStep(x, y) ensures RoomForAll(y, t, u) {
        RoomKept(x, y, t, u);
      }
      AlwaysKept(x => RoomForAll(x, t, u), a);
      assert forall b: State, v :: RoomForAll(b, t, u) && 0 <= v < |b.pcs| ==> !b.pcs[v].PastEnd?;
    }
  }
}
