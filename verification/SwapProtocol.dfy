/**
 virtual-memory/vm/swap.c under every interleaving of any number of threads. get_slot tests the free
 list and next_sector before it takes the table lock, and the block transfers of swap_out and swap_in run
 without it. A step is one such test, one lock taken, one locked change of the lists with the release that
 follows it, or one block transfer.
 */
module SwapProtocol {
  import opened Machine
  import opened Swap

  /** Where a thread is. */
  datatype Pc =
    | Idle
    | TestFree(page: Page)                       // get_slot, about to test list_empty, without the lock
    | TestSize(page: Page)                       // the list was empty; about to test next_sector, without the lock
    | WantNew(page: Page)                        // there was room; about to take the lock
    | HoldNew(page: Page)
    | WantPop(page: Page)                        // the list was not empty; about to take the lock
    | HoldPop(page: Page)
    | Writing(slot: nat, page: Page, i: nat)     // swap_out, i sectors written
    | Reading(slot: nat, bytes: seq<byte>)       // swap_in, with the bytes read so far
    | WantPut(slot: nat)                         // all read; about to take the lock
    | HoldPut(slot: nat)
    | NullSlot                                   // get_slot returned a null pointer, which swap_out follows
    | EmptyPop                                   // list_pop_front found an empty list
    | PastEnd(slot: nat)                         // block_write past the end of the device

  /** live: the slots callers hold, swapped out and not yet being swapped in; peak: the most slots ever occupied at once. */
  datatype State = State(
    device: seq<Sector>,
    nextSector: nat,
    occupied: seq<nat>,
    free: seq<nat>,
    lock: Option<nat>,
    live: set<nat>,
    peak: nat,
    pcs: seq<Pc>)

  datatype Event = Silent | DidOut(slot: nat, page: Page) | DidIn(slot: nat, bytes: seq<byte>)

  function Goto(st: State, t: nat, pc: Pc): State
    requires t < |st.pcs|
  {
    st.(pcs := st.pcs[t := pc])
  }

  /** The slot a thread is working on. */
  function Uses(pc: Pc): Option<nat> {
    match pc
    case Writing(x, _, _) => Some(x)
    case Reading(x, _) => Some(x)
    case WantPut(x) => Some(x)
    case HoldPut(x) => Some(x)
    case PastEnd(x) => Some(x)
    case _ => None
  }

  /** Slot x joins the occupied list. */
  function Occupy(st: State, x: nat): State {
    st.(occupied := st.occupied + [x], peak := Max(st.peak, |st.occupied| + 1))
  }

  /** What a swap_out or swap_in looks like when it begins; a slot is swapped in by the caller that holds it. */
  ghost predicate Begins(st: State, t: nat, st': State)
    requires t < |st.pcs|
  {
    || (exists page: Page :: st' == Goto(st, t, TestFree(page)))
    || (exists x: nat :: x in st.live && st' == Goto(st, t, Reading(x, [])).(live := st.live - {x}))
  }

  /** Thread t takes one step. */
  ghost predicate Next(st: State, t: nat, ev: Event, st': State)
    requires t < |st.pcs|
  {
    match st.pcs[t]
    case Idle => ev == Silent && Begins(st, t, st')
    case TestFree(page) => ev == Silent && st' == Goto(st, t, if st.free == [] then TestSize(page) else WantPop(page))
    case TestSize(page) =>
      ev == Silent && st' == Goto(st, t, if st.nextSector >= |st.device| then NullSlot else WantNew(page))
    case WantNew(page) => st.lock == None && ev == Silent && st' == Goto(st, t, HoldNew(page)).(lock := Some(t))
    case HoldNew(page) =>
      ev == Silent &&
      st' == Goto(Occupy(st, st.nextSector), t, Writing(st.nextSector, page, 0)).(
               nextSector := st.nextSector + SLOT_SECTORS, lock := None)
    case WantPop(page) => st.lock == None && ev == Silent && st' == Goto(st, t, HoldPop(page)).(lock := Some(t))
    case HoldPop(page) =>
      ev == Silent &&
      if st.free == [] then st' == Goto(st, t, EmptyPop)
      else st' == Goto(Occupy(st, st.free[0]), t, Writing(st.free[0], page, 0)).(free := st.free[1..], lock := None)
    case Writing(x, page, i) =>
      if i >= SLOT_SECTORS then ev == DidOut(x, page) && st' == Goto(st, t, Idle).(live := st.live + {x})
      else
        ev == Silent &&
        if x + i >= |st.device| then st' == Goto(st, t, PastEnd(x))
        else st' == Goto(st, t, Writing(x, page, i + 1)).(device := st.device[x + i := Part(page, i)])
    case Reading(x, bytes) =>
      if |bytes| >= PAGE_SIZE then ev == DidIn(x, bytes) && st' == Goto(st, t, WantPut(x))
      else
        var i := |bytes| / SECTOR_SIZE;
        ev == Silent &&
        if x + i >= |st.device| then st' == Goto(st, t, PastEnd(x))
        else st' == Goto(st, t, Reading(x, bytes + st.device[x + i]))
    case WantPut(x) => st.lock == None && ev == Silent && st' == Goto(st, t, HoldPut(x)).(lock := Some(t))
    case HoldPut(x) =>
      ev == Silent &&
      exists k :: 0 <= k < |st.occupied| && st.occupied[k] == x &&
        st' == Goto(st, t, Idle).(occupied := RemoveAt(st.occupied, k), free := st.free + [x], lock := None)
    case _ => false
  }

  ghost predicate Init(st: State) {
    && st.nextSector == 0 && st.occupied == [] && st.free == [] && st.lock == None && st.live == {} && st.peak == 0
    && forall t :: 0 <= t < |st.pcs| ==> st.pcs[t] == Idle
  }

  /** The last page swapped out to each slot. */
  function Saved(saved: map<nat, Page>, ev: Event): map<nat, Page> {
    if ev.DidOut? then saved[ev.slot := ev.page] else saved
  }

  // ---------------------------------------------------------------- the invariant

  /** Occupied and free slots partition those issued, and their number is what next_sector says. */
  ghost predicate ListsOk(st: State) {
    && st.nextSector % SLOT_SECTORS == 0
    && Distinct(st.occupied) && Distinct(st.free)
    && (forall x :: x in st.occupied ==> x !in st.free)
    && (forall x: nat :: x in st.occupied || x in st.free <==> Issued(st.nextSector, x))
    && (|st.occupied| + |st.free|) * SLOT_SECTORS == st.nextSector
    && |st.occupied| <= st.peak <= |st.occupied| + |st.free|
  }

  /** Every occupied slot is either held by callers or used by one thread. */
  ghost predicate UsersOk(st: State) {
    && (forall x :: x in st.live ==> x in st.occupied)
    && (forall t :: 0 <= t < |st.pcs| && Uses(st.pcs[t]).Some? ==>
          Uses(st.pcs[t]).value in st.occupied && Uses(st.pcs[t]).value !in st.live)
    && (forall t, u :: 0 <= t < u < |st.pcs| && Uses(st.pcs[t]).Some? ==> Uses(st.pcs[t]) != Uses(st.pcs[u]))
    && (forall x :: x in st.occupied && x !in st.live ==> UsedBySome(st.pcs, x))
  }

  ghost predicate UsedBySome(pcs: seq<Pc>, x: nat) {
    exists t :: 0 <= t < |pcs| && Uses(pcs[t]) == Some(x)
  }

  /** What a thread has written, or read, so far. */
  ghost predicate DataOk(device: seq<Sector>, saved: map<nat, Page>, pc: Pc) {
    match pc
    case Writing(x, page, i) =>
      i <= SLOT_SECTORS && (i > 0 ==> x + i <= |device|) && forall k :: 0 <= k < i ==> device[x + k] == Part(page, k)
    case Reading(x, bytes) =>
      && x in saved && Holds(device, x, saved[x])
      && |bytes| % SECTOR_SIZE == 0 && |bytes| <= PAGE_SIZE && bytes == saved[x][..|bytes|]
    case _ => true
  }

  ghost predicate LiveOk(device: seq<Sector>, saved: map<nat, Page>, x: nat) {
    x in saved && Holds(device, x, saved[x])
  }

  ghost predicate Inv(st: State, saved: map<nat, Page>) {
    && ListsOk(st) && UsersOk(st)
    && (forall x :: x in st.live ==> LiveOk(st.device, saved, x))
    && (forall t :: 0 <= t < |st.pcs| ==> DataOk(st.device, saved, st.pcs[t]))
  }

  /** What swap_in delivers is what was last swapped out to its slot. */
  ghost predicate Truthful(saved: map<nat, Page>, ev: Event) {
    ev.DidIn? ==> ev.slot in saved && ev.bytes == saved[ev.slot]
  }

  // ---------------------------------------------------------------- steps

  /** Thread t moves on without touching device, lists or slots. */
  ghost predicate Moves(st: State, t: nat, st': State)
    requires t < |st.pcs|
  {
    && st' == st.(pcs := st'.pcs, lock := st'.lock) && |st'.pcs| == |st.pcs| && st'.pcs == st.pcs[t := st'.pcs[t]]
    && Uses(st'.pcs[t]) == Uses(st.pcs[t])
  }

  lemma MovesKeeps(st: State, saved: map<nat, Page>, t: nat, st': State)
    requires Inv(st, saved) && t < |st.pcs| && Moves(st, t, st') && DataOk(st.device, saved, st'.pcs[t])
    ensures Inv(st', saved)
  {
    MovesKeepsUsers(st, t, st');
  }

  lemma MovesKeepsUsers(st: State, t: nat, st': State)
    requires UsersOk(st) && t < |st.pcs| && Moves(st, t, st')
    ensures UsersOk(st')
  {
    forall u | 0 <= u < |st.pcs| ensures Uses(st'.pcs[u]) == Uses(st.pcs[u]) {
    }
    forall x | x in st'.occupied && x !in st'.live ensures UsedBySome(st'.pcs, x) {
      var u :| 0 <= u < |st.pcs| && Uses(st.pcs[u]) == Some(x);
      assert Uses(st'.pcs[u]) == Some(x);
    }
  }

  /** swap_in begins: the slot passes from the callers to the thread. */
  lemma BeginInKeeps(st: State, saved: map<nat, Page>, t: nat, x: nat, st': State)
    requires Inv(st, saved) && t < |st.pcs| && Uses(st.pcs[t]) == None && x in st.live
    requires st' == Goto(st, t, Reading(x, [])).(live := st.live - {x})
    ensures Inv(st', saved)
  {
    assert LiveOk(st.device, saved, x);
    assert saved[x][..0] == [];
    assert Uses(st'.pcs[t]) == Some(x);
    forall y | y in st'.occupied && y !in st'.live ensures UsedBySome(st'.pcs, y) {
      if y != x {
        StillUsed(st.pcs, t, st'.pcs, y);
      }
    }
  }

  lemma StillUsed(pcs: seq<Pc>, t: nat, pcs': seq<Pc>, y: nat)
    requires t < |pcs| && |pcs'| == |pcs| && pcs' == pcs[t := pcs'[t]] && UsedBySome(pcs, y) && Uses(pcs[t]) != Some(y)
    ensures UsedBySome(pcs', y)
  {
    var u :| 0 <= u < |pcs| && Uses(pcs[u]) == Some(y);
    assert Uses(pcs'[u]) == Some(y);
  }

  /** A slot that was free or never issued becomes a thread's. */
  lemma OccupyKeepsUsers(st: State, t: nat, x: nat, page: Page, st': State)
    requires UsersOk(st) && ListsOk(st) && t < |st.pcs| && Uses(st.pcs[t]) == None && x !in st.occupied
    requires st'.occupied == st.occupied + [x] && st'.live == st.live && st'.pcs == st.pcs[t := Writing(x, page, 0)]
    ensures UsersOk(st')
  {
    assert Uses(st'.pcs[t]) == Some(x);
    forall y | y in st'.occupied && y !in st'.live ensures UsedBySome(st'.pcs, y) {
      if y != x {
        StillUsed(st.pcs, t, st'.pcs, y);
      }
    }
  }

  lemma NewKeepsLists(st: State, st': State)
    requires ListsOk(st) && st'.nextSector == st.nextSector + SLOT_SECTORS && st'.free == st.free
    requires st'.occupied == st.occupied + [st.nextSector] && st'.peak == Max(st.peak, |st.occupied| + 1)
    ensures ListsOk(st') && st.nextSector !in st.occupied
  {
    var x := st.nextSector;
    assert !Issued(x, x);
    NewIsIssued(x);
  }

  lemma NewIsIssued(x: nat)
    requires x % SLOT_SECTORS == 0
    ensures forall y: nat :: Issued(x + SLOT_SECTORS, y) <==> Issued(x, y) || y == x
  {
    forall y: nat ensures Issued(x + SLOT_SECTORS, y) <==> Issued(x, y) || y == x {
      if y % SLOT_SECTORS == 0 && y != x {
        SlotsApart(x, y);
      }
    }
  }

  lemma PopKeepsLists(st: State, st': State)
    requires ListsOk(st) && st.free != [] && st'.nextSector == st.nextSector && st'.free == st.free[1..]
    requires st'.occupied == st.occupied + [st.free[0]] && st'.peak == Max(st.peak, |st.occupied| + 1)
    ensures ListsOk(st') && st.free[0] !in st.occupied
  {
    var x := st.free[0];
    assert x in st.free;
    assert st.free == [x] + st.free[1..];
    assert x !in st.free[1..];
  }

  lemma PutKeepsLists(st: State, k: nat, st': State)
    requires ListsOk(st) && k < |st.occupied| && st'.nextSector == st.nextSector && st'.peak == st.peak
    requires st'.occupied == RemoveAt(st.occupied, k) && st'.free == st.free + [st.occupied[k]]
    ensures ListsOk(st')
  {
    assert st.occupied[k] in st.occupied;
    RemovedAt(st.occupied, k);
  }

  lemma TakeKeeps(st: State, saved: map<nat, Page>, t: nat, x: nat, page: Page, st': State)
    requires Inv(st, saved) && t < |st.pcs| && Uses(st.pcs[t]) == None && x !in st.occupied && ListsOk(st')
    requires st'.device == st.device && st'.occupied == st.occupied + [x] && st'.live == st.live
    requires st'.pcs == st.pcs[t := Writing(x, page, 0)]
    ensures Inv(st', saved)
  {
    OccupyKeepsUsers(st, t, x, page, st');
  }

  /** Nobody else's sectors lie in slot x. */
  lemma ElsewhereKept(device: seq<Sector>, x: nat, i: nat, data: Sector, y: nat, page: Page)
    requires x % SLOT_SECTORS == 0 && y % SLOT_SECTORS == 0 && x != y && i < SLOT_SECTORS && x + i < |device|
    requires Holds(device, y, page)
    ensures Holds(device[x + i := data], y, page)
  {
    SlotsApart(x, y);
  }

  lemma OtherDataKept(device: seq<Sector>, saved: map<nat, Page>, x: nat, i: nat, data: Sector, pc: Pc)
    requires DataOk(device, saved, pc) && x % SLOT_SECTORS == 0 && i < SLOT_SECTORS && x + i < |device|
    requires Uses(pc).Some? ==> Uses(pc).value % SLOT_SECTORS == 0 && Uses(pc).value != x
    ensures DataOk(device[x + i := data], saved, pc)
  {
    match pc
    case Writing(y, page, j) => SlotsApart(x, y);
    case Reading(y, bytes) => ElsewhereKept(device, x, i, data, y, saved[y]);
    case _ =>
  }

  lemma LiveElsewhere(st: State, saved: map<nat, Page>, x: nat, i: nat, data: Sector)
    requires ListsOk(st) && UsersOk(st) && x in st.occupied && x !in st.live && i < SLOT_SECTORS && x + i < |st.device|
    requires forall y :: y in st.live ==> LiveOk(st.device, saved, y)
    ensures forall y :: y in st.live ==> LiveOk(st.device[x + i := data], saved, y)
  {
    assert Issued(st.nextSector, x);
    forall y | y in st.live ensures LiveOk(st.device[x + i := data], saved, y) {
      assert LiveOk(st.device, saved, y) && Issued(st.nextSector, y);
      ElsewhereKept(st.device, x, i, data, y, saved[y]);
    }
  }

  lemma OwnWrite(device: seq<Sector>, saved: map<nat, Page>, x: nat, page: Page, i: nat)
    requires DataOk(device, saved, Writing(x, page, i)) && i < SLOT_SECTORS && x + i < |device|
    ensures DataOk(device[x + i := Part(page, i)], saved, Writing(x, page, i + 1))
  {
  }

  /** One block_write of swap_out. */
  lemma WriteKeeps(st: State, saved: map<nat, Page>, t: nat, x: nat, page: Page, i: nat, st': State)
    requires Inv(st, saved) && t < |st.pcs| && st.pcs[t] == Writing(x, page, i) && i < SLOT_SECTORS && x + i < |st.device|
    requires st' == Goto(st, t, Writing(x, page, i + 1)).(device := st.device[x + i := Part(page, i)])
    ensures Inv(st', saved)
  {
    assert Uses(st.pcs[t]) == Some(x) && Issued(st.nextSector, x);
    MovesKeepsUsers(st, t, st'.(device := st.device));
    LiveElsewhere(st, saved, x, i, Part(page, i));
    hide LiveOk, DataOk;
    OwnWrite(st.device, saved, x, page, i);
    forall u | 0 <= u < |st'.pcs| ensures DataOk(st'.device, saved, st'.pcs[u]) {
      if u != t {
        OthersElsewhere(st, t, u);
        OtherDataKept(st.device, saved, x, i, Part(page, i), st.pcs[u]);
      }
    }
  }

  lemma OthersElsewhere(st: State, t: nat, u: nat)
    requires ListsOk(st) && UsersOk(st) && t < |st.pcs| && u < |st.pcs| && t != u && Uses(st.pcs[t]).Some?
    ensures Uses(st.pcs[u]).Some? ==> Uses(st.pcs[u]) != Uses(st.pcs[t]) && Uses(st.pcs[u]).value % SLOT_SECTORS == 0
  {
    if Uses(st.pcs[u]).Some? {
      assert Issued(st.nextSector, Uses(st.pcs[u]).value);
      assert t < u || u < t;
    }
  }

  /** swap_out returns: the slot passes to the callers with its page. */
  lemma OutDone(st: State, saved: map<nat, Page>, t: nat, x: nat, page: Page, i: nat, st': State)
    requires Inv(st, saved) && t < |st.pcs| && st.pcs[t] == Writing(x, page, i) && i >= SLOT_SECTORS
    requires st' == Goto(st, t, Idle).(live := st.live + {x})
    ensures Inv(st', saved[x := page])
  {
    assert Uses(st.pcs[t]) == Some(x) && DataOk(st.device, saved, st.pcs[t]);
    forall y | y in st'.occupied && y !in st'.live ensures UsedBySome(st'.pcs, y) {
      StillUsed(st.pcs, t, st'.pcs, y);
    }
    forall y | y in st'.live ensures LiveOk(st'.device, saved[x := page], y) {
      if y != x {
        assert LiveOk(st.device, saved, y);
      }
    }
    forall u | 0 <= u < |st'.pcs| ensures DataOk(st'.device, saved[x := page], st'.pcs[u]) {
      if u != t {
        OthersElsewhere(st, t, u);
        assert DataOk(st.device, saved, st.pcs[u]);
      }
    }
    assert UsersOk(st') by {
      OutDoneUsers(st, t, x, st');
    }
  }

  lemma OutDoneUsers(st: State, t: nat, x: nat, st': State)
    requires UsersOk(st) && t < |st.pcs| && Uses(st.pcs[t]) == Some(x)
    requires st'.pcs == st.pcs[t := Idle] && st'.live == st.live + {x} && st'.occupied == st.occupied
    ensures UsersOk(st')
  {
    forall u | 0 <= u < |st'.pcs| && Uses(st'.pcs[u]).Some? ensures Uses(st'.pcs[u]).value !in st'.live {
      assert t < u || u < t;
    }
    forall y | y in st'.occupied && y !in st'.live ensures UsedBySome(st'.pcs, y) {
      StillUsed(st.pcs, t, st'.pcs, y);
    }
  }

  /** One block_read of swap_in. */
  lemma ReadKeeps(st: State, saved: map<nat, Page>, t: nat, x: nat, bytes: seq<byte>, st': State)
    requires Inv(st, saved) && t < |st.pcs| && st.pcs[t] == Reading(x, bytes) && |bytes| < PAGE_SIZE
    requires x + |bytes| / SECTOR_SIZE < |st.device|
    requires st' == Goto(st, t, Reading(x, bytes + st.device[x + |bytes| / SECTOR_SIZE]))
    ensures Inv(st', saved)
  {
    assert DataOk(st.device, saved, st.pcs[t]);
    var i := |bytes| / SECTOR_SIZE;
    assert st.device[x + i] == Part(saved[x], i);
    assert bytes + Part(saved[x], i) == saved[x][..|bytes| + SECTOR_SIZE];
    MovesKeeps(st, saved, t, st');
  }

  /** block_read stays on the device. */
  lemma ReadInside(st: State, saved: map<nat, Page>, t: nat, x: nat, bytes: seq<byte>)
    requires Inv(st, saved) && t < |st.pcs| && st.pcs[t] == Reading(x, bytes) && |bytes| < PAGE_SIZE
    ensures x + |bytes| / SECTOR_SIZE < |st.device| && |bytes| % SECTOR_SIZE == 0
  {
    assert DataOk(st.device, saved, st.pcs[t]);
  }

  /** The end of swap_in: the slot is free. */
  lemma PutKeeps(st: State, saved: map<nat, Page>, t: nat, k: nat, st': State)
    requires Inv(st, saved) && t < |st.pcs| && k < |st.occupied| && st.pcs[t] == HoldPut(st.occupied[k])
    requires st' == Goto(st, t, Idle).(occupied := RemoveAt(st.occupied, k), free := st.free + [st.occupied[k]], lock := None)
    ensures Inv(st', saved)
  {
    var x := st.occupied[k];
    assert Uses(st.pcs[t]) == Some(x);
    PutKeepsLists(st, k, st');
    RemovedAt(st.occupied, k);
    forall u | 0 <= u < |st'.pcs| && Uses(st'.pcs[u]).Some? ensures Uses(st'.pcs[u]).value in st'.occupied {
      assert t < u || u < t;
    }
    forall y | y in st'.occupied && y !in st'.live ensures UsedBySome(st'.pcs, y) {
      StillUsed(st.pcs, t, st'.pcs, y);
    }
  }

  /** Every step of every thread keeps the invariant, and what a swap_in delivers is what went out. */
  lemma StepKeeps(st: State, saved: map<nat, Page>, t: nat, ev: Event, st': State)
    requires Inv(st, saved) && t < |st.pcs| && Next(st, t, ev, st')
    ensures Inv(st', Saved(saved, ev)) && Truthful(saved, ev)
  {
    hide Inv, ListsOk;
    match st.pcs[t]
    case Idle =>
      if exists page: Page :: st' == Goto(st, t, TestFree(page)) {
        MovesKeeps(st, saved, t, st');
      } else {
        var x: nat :| x in st.live && st' == Goto(st, t, Reading(x, [])).(live := st.live - {x});
        BeginInKeeps(st, saved, t, x, st');
      }
    case HoldNew(page) => NewStep(st, saved, t, page, st');
    case HoldPop(page) =>
      if st.free == [] {
        MovesKeeps(st, saved, t, st');
      } else {
        PopStep(st, saved, t, page, st');
      }
    case Writing(x, page, i) =>
      if i >= SLOT_SECTORS {
        OutDone(st, saved, t, x, page, i, st');
      } else if x + i >= |st.device| {
        MovesKeeps(st, saved, t, st');
      } else {
        WriteKeeps(st, saved, t, x, page, i, st');
      }
    case Reading(x, bytes) =>
      if |bytes| >= PAGE_SIZE {
        ReadDone(st, saved, t, x, bytes);
        MovesKeeps(st, saved, t, st');
      } else {
        ReadInside(st, saved, t, x, bytes);
        ReadKeeps(st, saved, t, x, bytes, st');
      }
    case HoldPut(x) =>
      var k :| 0 <= k < |st.occupied| && st.occupied[k] == x &&
        st' == Goto(st, t, Idle).(occupied := RemoveAt(st.occupied, k), free := st.free + [x], lock := None);
      PutKeeps(st, saved, t, k, st');
    case _ => MovesKeeps(st, saved, t, st');
  }

  lemma ReadDone(st: State, saved: map<nat, Page>, t: nat, x: nat, bytes: seq<byte>)
    requires Inv(st, saved) && t < |st.pcs| && st.pcs[t] == Reading(x, bytes) && |bytes| >= PAGE_SIZE
    ensures x in saved && bytes == saved[x]
  {
    assert DataOk(st.device, saved, st.pcs[t]);
    assert saved[x][..PAGE_SIZE] == saved[x];
  }

  lemma NewStep(st: State, saved: map<nat, Page>, t: nat, page: Page, st': State)
    requires Inv(st, saved) && t < |st.pcs| && st.pcs[t] == HoldNew(page) && Next(st, t, Silent, st')
    ensures Inv(st', saved)
  {
    NewKeepsLists(st, st');
    TakeKeeps(st, saved, t, st.nextSector, page, st');
  }

  lemma PopStep(st: State, saved: map<nat, Page>, t: nat, page: Page, st': State)
    requires Inv(st, saved) && t < |st.pcs| && st.pcs[t] == HoldPop(page) && st.free != [] && Next(st, t, Silent, st')
    ensures Inv(st', saved)
  {
    PopKeepsLists(st, st');
    TakeKeeps(st, saved, t, st.free[0], page, st');
  }

  // ---------------------------------------------------------------- whole runs

  ghost predicate Run(states: seq<State>, who: seq<nat>, evs: seq<Event>) {
    && |states| == |evs| + 1 && |who| == |evs| && Init(states[0])
    && forall k :: 0 <= k < |evs| ==> who[k] < |states[k].pcs| && Next(states[k], who[k], evs[k], states[k + 1])
  }

  function Replay(evs: seq<Event>): map<nat, Page> {
    if evs == [] then map[] else Saved(Replay(evs[..|evs| - 1]), evs[|evs| - 1])
  }

  lemma {:induction false} RunsKeepInv(states: seq<State>, who: seq<nat>, evs: seq<Event>, n: nat)
    requires Run(states, who, evs) && n < |states|
    ensures Inv(states[n], Replay(evs[..n]))
    decreases n
  {
    hide Next;
    if n == 0 {
      assert evs[..0] == [];
    } else {
      RunsKeepInv(states, who, evs, n - 1);
      assert evs[..n][..n - 1] == evs[..n - 1];
      StepKeeps(states[n - 1], Replay(evs[..n - 1]), who[n - 1], evs[n - 1], states[n]);
    }
  }

  /**
   In every interleaving, also one in which some call has failed: the occupied and free lists partition
   the issued slots, and no two slots that callers hold or threads work on share a sector.
   */
  lemma SlotsStayApart(states: seq<State>, who: seq<nat>, evs: seq<Event>, n: nat, x: nat, y: nat)
    requires Run(states, who, evs) && n < |states| && x != y
    requires x in states[n].live || UsedBySome(states[n].pcs, x)
    requires y in states[n].live || UsedBySome(states[n].pcs, y)
    ensures ListsOk(states[n]) && x in states[n].occupied && x !in states[n].free
    ensures x + SLOT_SECTORS <= y || y + SLOT_SECTORS <= x
  {
    RunsKeepInv(states, who, evs, n);
    assert Issued(states[n].nextSector, x) && Issued(states[n].nextSector, y);
    SlotsApart(x, y);
  }

  /** In every interleaving a swap_in delivers the page last swapped out to its slot. */
  lemma InReturnsLastOut(states: seq<State>, who: seq<nat>, evs: seq<Event>, n: nat)
    requires Run(states, who, evs) && n < |evs| && evs[n].DidIn?
    ensures evs[n].slot in Replay(evs[..n]) && evs[n].bytes == Replay(evs[..n])[evs[n].slot]
  {
    RunsKeepInv(states, who, evs, n);
    StepKeeps(states[n], Replay(evs[..n]), who[n], evs[n], states[n + 1]);
  }
}
