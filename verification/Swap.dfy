/**
 The swap table of virtual-memory/vm/swap.c: slots of eight sectors, handed out from a free list or
 by advancing next_sector, each holding one page between swap_out and swap_in.
 */
module Swap {
  import opened Machine

  const SLOT_SECTORS := PAGE_SIZE / SECTOR_SIZE

  /** The globals: the device, and the slots by first sector, in list order. */
  datatype SwapState = SwapState(device: seq<Sector>, nextSector: nat, occupied: seq<nat>, free: seq<nat>)

  type Page = s: seq<byte> | |s| == PAGE_SIZE witness Zeros(PAGE_SIZE)

  /** Sector i of a page. */
  function Part(page: Page, i: nat): Sector
    requires i < SLOT_SECTORS
  {
    page[i * SECTOR_SIZE..(i + 1) * SECTOR_SIZE]
  }

  /** The device holds the page in the slot at s. */
  ghost predicate Holds(device: seq<Sector>, s: nat, page: Page) {
    s + SLOT_SECTORS <= |device| && forall i :: 0 <= i < SLOT_SECTORS ==> device[s + i] == Part(page, i)
  }

  ghost predicate Distinct(xs: seq<nat>) {
    forall i, j :: 0 <= i < j < |xs| ==> xs[i] != xs[j]
  }

  /** A slot that has been issued. */
  predicate Issued(nextSector: nat, s: nat) { s % SLOT_SECTORS == 0 && s < nextSector }

  /** The two lists partition the issued slots, and the occupied ones hold the saved pages. */
  ghost predicate Valid(s: SwapState, saved: map<nat, Page>) {
    && s.nextSector % SLOT_SECTORS == 0 && s.nextSector <= |s.device|
    && Distinct(s.occupied) && Distinct(s.free)
    && (forall x :: x in s.occupied ==> x !in s.free)
    && (forall x: nat :: x in s.occupied || x in s.free <==> Issued(s.nextSector, x))
    && (forall x :: x in s.occupied <==> x in saved)
    && (forall x :: x in saved ==> Holds(s.device, x, saved[x]))
    && (|s.occupied| + |s.free|) * SLOT_SECTORS == s.nextSector
  }

  /** get_slot: the slot it returns, if any. The last one may not fit the device. */
  function SlotFor(s: SwapState): Option<nat> {
    if s.free != [] then Some(s.free[0])
    else if s.nextSector < |s.device| then Some(s.nextSector)
    else None
  }

  /** get_slot's effect on the lists. */
  function Taken(s: SwapState): SwapState
    requires SlotFor(s).Some?
  {
    if s.free != [] then s.(free := s.free[1..], occupied := s.occupied + [s.free[0]])
    else s.(nextSector := s.nextSector + SLOT_SECTORS, occupied := s.occupied + [s.nextSector])
  }

  /** The device after a page has been written to the slot at x. */
  function WithPage(device: seq<Sector>, x: nat, page: Page): (r: seq<Sector>)
    requires x + SLOT_SECTORS <= |device|
    ensures |r| == |device| && Holds(r, x, page)
    ensures forall k :: 0 <= k < |device| && !(x <= k < x + SLOT_SECTORS) ==> r[k] == device[k]
  {
    device[..x] + seq(SLOT_SECTORS, i requires 0 <= i < SLOT_SECTORS => Part(page, i)) + device[x + SLOT_SECTORS..]
  }

  function SwappedOut(s: SwapState, page: Page): SwapState
    requires SlotFor(s).Some? && SlotFor(s).value + SLOT_SECTORS <= |s.device|
  {
    Taken(s).(device := WithPage(s.device, SlotFor(s).value, page))
  }

  function RemoveAt(xs: seq<nat>, k: nat): seq<nat>
    requires k < |xs|
  {
    xs[..k] + xs[k + 1..]
  }

  /** swap_in of the k-th occupied slot. */
  function SwappedIn(s: SwapState, k: nat): SwapState
    requires k < |s.occupied|
  {
    s.(occupied := RemoveAt(s.occupied, k), free := s.free + [s.occupied[k]])
  }

  lemma RemovedAt(xs: seq<nat>, k: nat)
    requires k < |xs| && Distinct(xs)
    ensures Distinct(RemoveAt(xs, k)) && |RemoveAt(xs, k)| == |xs| - 1
    ensures forall x :: x in RemoveAt(xs, k) <==> x in xs && x != xs[k]
  {
    var ys := RemoveAt(xs, k);
    assert forall i :: 0 <= i < |ys| ==> ys[i] == if i < k then xs[i] else xs[i + 1];
    forall x | x in xs && x != xs[k] ensures x in ys {
      var i :| 0 <= i < |xs| && xs[i] == x;
      assert ys[if i < k then i else i - 1] == x;
    }
  }

  /** Two different slots share no sector. */
  lemma SlotsApart(x: nat, y: nat)
    requires x % SLOT_SECTORS == 0 && y % SLOT_SECTORS == 0 && x != y
    ensures x + SLOT_SECTORS <= y || y + SLOT_SECTORS <= x
  {
  }

  lemma SlotIsNew(s: SwapState, saved: map<nat, Page>)
    requires Valid(s, saved) && SlotFor(s).Some?
    ensures var x := SlotFor(s).value;
            && x !in s.occupied && x % SLOT_SECTORS == 0
            && (s.free != [] || |s.device| % SLOT_SECTORS == 0 ==> x + SLOT_SECTORS <= |s.device|)
  {
    var x := SlotFor(s).value;
    if s.free != [] {
      assert x in s.free;
      SlotsApart(x, s.nextSector);
    } else {
      assert !Issued(s.nextSector, x);
    }
  }

  lemma TakenLists(s: SwapState, saved: map<nat, Page>)
    requires Valid(s, saved) && SlotFor(s).Some?
    ensures
      var r, x := Taken(s), SlotFor(s).value;
      && Distinct(r.occupied) && Distinct(r.free)
      && (forall y :: y in r.occupied <==> y in s.occupied || y == x)
      && (forall y :: y in r.occupied ==> y !in r.free)
      && (forall y: nat :: y in r.occupied || y in r.free <==> Issued(r.nextSector, y))
  {
    SlotIsNew(s, saved);
    var r, x := Taken(s), SlotFor(s).value;
    if s.free != [] {
      assert s.free == [x] + s.free[1..];
      assert x !in s.free[1..];
    } else {
      forall y: nat ensures Issued(r.nextSector, y) <==> Issued(s.nextSector, y) || y == x {
        if y % SLOT_SECTORS == 0 && y != x { SlotsApart(x, y); }
      }
    }
  }

  lemma TakenCount(s: SwapState, saved: map<nat, Page>)
    requires Valid(s, saved) && SlotFor(s).Some? && SlotFor(s).value + SLOT_SECTORS <= |s.device|
    ensures
      var r := Taken(s);
      && r.nextSector % SLOT_SECTORS == 0 && r.nextSector <= |s.device|
      && (|r.occupied| + |r.free|) * SLOT_SECTORS == r.nextSector
      && (Issued(s.nextSector, SlotFor(s).value) || SlotFor(s).value == s.nextSector)
  {
    hide Holds, Distinct;
    if s.free != [] {
      assert s.free[0] in s.free;
    }
  }

  /**
   A slot is found, on the device, exactly while fewer slots are occupied than the device has room for; with as
   many occupied there is none, or, if the device ends in part of a slot, one that runs off it.
   */
  lemma SlotIff(s: SwapState, saved: map<nat, Page>)
    requires Valid(s, saved)
    ensures SlotFor(s).None? <==> |s.occupied| * SLOT_SECTORS == |s.device|
    ensures SlotFor(s).Some? && SlotFor(s).value + SLOT_SECTORS <= |s.device| <==> |s.occupied| < |s.device| / SLOT_SECTORS
  {
    if s.free != [] {
      SlotFits(s, saved);
    }
    CountsFit(|s.occupied|, |s.free|, |s.device|);
    hide Holds, Distinct, Issued;
  }

  lemma CountsFit(occupied: nat, free: nat, size: nat)
    requires (occupied + free) * SLOT_SECTORS <= size
    ensures free > 0 ==> occupied * SLOT_SECTORS != size && occupied < size / SLOT_SECTORS
    ensures occupied < size / SLOT_SECTORS <==> occupied * SLOT_SECTORS + SLOT_SECTORS <= size
  {
  }

  lemma SlotFits(s: SwapState, saved: map<nat, Page>)
    requires Valid(s, saved) && s.free != []
    ensures s.free[0] + SLOT_SECTORS <= |s.device|
  {
    SlotIsNew(s, saved);
  }

  /** swap_out keeps every other page, and saves this one, if its slot fits the device. */
  lemma OutKeeps(s: SwapState, saved: map<nat, Page>, page: Page)
    requires Valid(s, saved) && SlotFor(s).Some? && SlotFor(s).value + SLOT_SECTORS <= |s.device|
    ensures SlotFor(s).value !in saved
    ensures Valid(SwappedOut(s, page), saved[SlotFor(s).value := page])
  {
    SlotIsNew(s, saved);
    hide Holds, Distinct, Part, SlotFor, Taken;
    TakenLists(s, saved);
    TakenCount(s, saved);
    PagesKept(s, saved, page, SwappedOut(s, page).device);
  }

  /** No live page lies where the new one goes. */
  lemma PagesKept(s: SwapState, saved: map<nat, Page>, page: Page, device: seq<Sector>)
    requires Valid(s, saved) && SlotFor(s).Some? && SlotFor(s).value + SLOT_SECTORS <= |s.device|
    requires SlotFor(s).value !in saved && device == WithPage(s.device, SlotFor(s).value, page)
    requires Issued(s.nextSector, SlotFor(s).value) || SlotFor(s).value == s.nextSector
    ensures forall y :: y in saved ==> Holds(device, y, saved[y])
  {
    var x := SlotFor(s).value;
    forall y | y in saved ensures Holds(device, y, saved[y]) {
      assert y in s.occupied && Issued(s.nextSector, y);
      SlotsApart(x, y);
    }
  }

  /** swap_in frees the slot and keeps every other page. */
  lemma InKeeps(s: SwapState, saved: map<nat, Page>, k: nat)
    requires Valid(s, saved) && k < |s.occupied|
    ensures s.occupied[k] in saved && Holds(s.device, s.occupied[k], saved[s.occupied[k]])
    ensures Valid(SwappedIn(s, k), saved - {s.occupied[k]})
  {
    var x := s.occupied[k];
    assert x in s.occupied;
    RemovedAt(s.occupied, k);
    assert x !in s.free;
  }

  // ---------------------------------------------------------------- the code

  /** How swap_out ends: with a slot, following a null pointer, or with block_write past the end of the device. */
  datatype Outcome = Slot(x: nat) | NoSlot | OffDevice

  class SwapTable {
    var device: seq<Sector>
    var nextSector: nat
    var swapOccupied: seq<nat>
    var swapUnoccupied: seq<nat>
    ghost var saved: map<nat, Page>

    ghost function State(): SwapState
      reads this
    {
      SwapState(device, nextSector, swapOccupied, swapUnoccupied)
    }

    ghost predicate Ok()
      reads this
    {
      Valid(State(), saved)
    }

    constructor (device: seq<Sector>)
      ensures Ok() && this.device == device && saved == map[] && nextSector == 0
    {
      this.device, nextSector, swapOccupied, swapUnoccupied, saved := device, 0, [], [], map[];
    }

    /** get_slot. None stands for both ways a full store stops swap_out: no slot, or one that runs off the device. */
    method GetSlot() returns (ss: Option<nat>)
      requires Ok()
      modifies this
      ensures ss == SlotFor(old(State())) && saved == old(saved)
      ensures State() == if ss.Some? then Taken(old(State())) else old(State())
      ensures ss == None <==> |old(swapOccupied)| * SLOT_SECTORS == |device|
      ensures device == old(device) && (old(swapUnoccupied) != [] ==> ss == Some(old(swapUnoccupied)[0]))
      ensures ss.Some? ==> swapOccupied == old(swapOccupied) + [ss.value]
    {
      hide Holds, Distinct;
      SlotIff(State(), saved);
      if swapUnoccupied == [] {
        if nextSector >= |device| {
          return None;
        }
        ss := Some(nextSector);
        nextSector := nextSector + SLOT_SECTORS;
        swapOccupied := swapOccupied + [ss.value];
      } else {
        ss := Some(swapUnoccupied[0]);
        swapUnoccupied := swapUnoccupied[1..];
        swapOccupied := swapOccupied + [ss.value];
      }
    }

    /** The loop of swap_out: eight block writes, or a panic at the end of the device. */
    method WritePage(x: nat, kpage: Page) returns (ok: bool)
      modifies this`device
      ensures ok <==> x + SLOT_SECTORS <= |old(device)|
      ensures ok ==> device == WithPage(old(device), x, kpage)
    {
      var i := 0;
      while i < SLOT_SECTORS
        invariant 0 <= i <= SLOT_SECTORS && |device| == |old(device)| && (i > 0 ==> x + i <= |device|)
        invariant forall k :: 0 <= k < i ==> device[x + k] == Part(kpage, k)
        invariant forall k :: 0 <= k < |device| && !(x <= k < x + i) ==> device[k] == old(device)[k]
      {
        if x + i >= |device| {
          return false;
        }
        device := device[x + i := kpage[i * SECTOR_SIZE..(i + 1) * SECTOR_SIZE]];
        i := i + 1;
      }
      ok := true;
    }

    /** swap_out, with nobody else at work: the slot, or how it stops the kernel. */
    method SwapOut(kpage: Page) returns (r: Outcome)
      requires Ok()
      modifies this
      ensures r.NoSlot? <==> SlotFor(old(State())).None?
      ensures r.OffDevice? <==> SlotFor(old(State())).Some? && SlotFor(old(State())).value + SLOT_SECTORS > |old(device)|
      ensures !r.OffDevice? ==> Ok() && |device| == |old(device)|
      ensures r.Slot? <==> |old(swapOccupied)| < |old(device)| / SLOT_SECTORS
      ensures r.NoSlot? <==> |old(swapOccupied)| * SLOT_SECTORS == |old(device)|
      ensures r.NoSlot? ==> State() == old(State()) && saved == old(saved)
      ensures r.Slot? ==>
                && SlotFor(old(State())) == Some(r.x) && r.x !in old(saved)
                && State() == SwappedOut(old(State()), kpage) && saved == old(saved)[r.x := kpage]
    {
      ghost var s := State();
      SlotIff(s, saved);
      var ss := GetSlot();
      if ss.None? {
        return NoSlot;
      }
      var x := ss.value;
      var ok := WritePage(x, kpage);
      if !ok {
        return OffDevice;
      }
      OutKeeps(s, saved, kpage);
      r := Slot(x);
      assert State() == SwappedOut(s, kpage);
      saved := saved[x := kpage];
    }

    /** swap_in of a slot that swap_out returned and that has not been swapped in since. */
    method SwapIn(ss: nat) returns (kpage: Page)
      requires Ok() && ss in saved
      modifies this
      ensures Ok() && device == old(device) && nextSector == old(nextSector)
      ensures kpage == old(saved)[ss] && saved == old(saved) - {ss}
      ensures swapUnoccupied == old(swapUnoccupied) + [ss]
    {
      ghost var s, page := State(), saved[ss];
      var k :| 0 <= k < |swapOccupied| && swapOccupied[k] == ss;
      InKeeps(s, saved, k);
      var bytes: seq<byte> := [];
      var i := 0;
      while i < SLOT_SECTORS
        invariant 0 <= i <= SLOT_SECTORS && State() == s && saved == old(saved)
        invariant bytes == page[..i * SECTOR_SIZE]
      {
        assert device[ss + i] == Part(page, i);
        bytes := bytes + device[ss + i];
        i := i + 1;
      }
      assert page[..PAGE_SIZE] == page;
      kpage := bytes;
      swapOccupied := swapOccupied[..k] + swapOccupied[k + 1..];
      swapUnoccupied := swapUnoccupied + [ss];
      saved := saved - {ss};
      assert State() == SwappedIn(s, k);
    }
  }

  // ---------------------------------------------------------------- runs

  datatype Op = Out(page: Page) | In(slot: nat, page: Page)

  /** A swap_out into the slot it gets, or a swap_in of the k-th occupied slot, reading its eight sectors. */
  ghost predicate Step(s: SwapState, op: Op, s': SwapState) {
    match op
    case Out(page) => SlotFor(s).Some? && SlotFor(s).value + SLOT_SECTORS <= |s.device| && s' == SwappedOut(s, page)
    case In(slot, page) =>
      exists k :: 0 <= k < |s.occupied| && s.occupied[k] == slot && Holds(s.device, slot, page) && s' == SwappedIn(s, k)
  }

  ghost predicate Run(states: seq<SwapState>, ops: seq<Op>) {
    && |states| == |ops| + 1
    && states[0].nextSector == 0 && states[0].occupied == [] && states[0].free == []
    && forall k :: 0 <= k < |ops| ==> Step(states[k], ops[k], states[k + 1])
  }

  ghost function LiveAfter(s: SwapState, op: Op, before: map<nat, Page>): map<nat, Page> {
    match op
    case Out(page) => if SlotFor(s).Some? then before[SlotFor(s).value := page] else before
    case In(slot, _) => before - {slot}
  }

  /** The pages swapped out and not yet back after k operations: the last page put into each slot. */
  ghost function Live(states: seq<SwapState>, ops: seq<Op>, k: nat): map<nat, Page>
    requires |states| == |ops| + 1 && k <= |ops|
  {
    if k == 0 then map[] else LiveAfter(states[k - 1], ops[k - 1], Live(states, ops, k - 1))
  }

  lemma StepStaysValid(s: SwapState, op: Op, s': SwapState, saved: map<nat, Page>)
    requires Valid(s, saved) && Step(s, op, s')
    ensures Valid(s', LiveAfter(s, op, saved))
  {
    match op
    case Out(page) => OutKeeps(s, saved, page);
    case In(slot, page) =>
      var j :| 0 <= j < |s.occupied| && s.occupied[j] == slot && Holds(s.device, slot, page) && s' == SwappedIn(s, j);
      InKeeps(s, saved, j);
  }

  lemma StartIsValid(s: SwapState)
    requires s.nextSector == 0 && s.occupied == [] && s.free == []
    ensures Valid(s, map[])
  {
  }

  lemma {:induction false} RunsStayValid(states: seq<SwapState>, ops: seq<Op>, k: nat)
    requires Run(states, ops) && k <= |ops|
    ensures Valid(states[k], Live(states, ops, k))
    decreases k
  {
    hide Valid, Step;
    if k == 0 {
      StartIsValid(states[0]);
    } else {
      RunsStayValid(states, ops, k - 1);
      StepStaysValid(states[k - 1], ops[k - 1], states[k], Live(states, ops, k - 1));
    }
  }

  lemma OnePageHeld(device: seq<Sector>, s: nat, p: Page, q: Page)
    requires Holds(device, s, p) && Holds(device, s, q)
    ensures p == q
  {
    forall i | 0 <= i < PAGE_SIZE ensures p[i] == q[i] {
      var b := i / SECTOR_SIZE;
      assert Part(p, b)[i % SECTOR_SIZE] == p[i] && Part(q, b)[i % SECTOR_SIZE] == q[i];
      assert device[s + b] == Part(p, b);
    }
  }

  /** In every run, whatever else was swapped in between, swap_in returns the page that went out to its slot. */
  lemma SwapInReturnsPage(states: seq<SwapState>, ops: seq<Op>, k: nat)
    requires Run(states, ops) && k < |ops| && ops[k].In?
    ensures ops[k].slot in Live(states, ops, k) && ops[k].page == Live(states, ops, k)[ops[k].slot]
  {
    RunsStayValid(states, ops, k);
    assert Step(states[k], ops[k], states[k + 1]);
    var s, slot := states[k], ops[k].slot;
    assert slot in s.occupied;
    OnePageHeld(s.device, slot, ops[k].page, Live(states, ops, k)[slot]);
  }

  /** The largest number of slots occupied at once in the first k operations. */
  ghost function Peak(states: seq<SwapState>, k: nat): nat
    requires k < |states|
  {
    if k == 0 then |states[0].occupied| else Max(Peak(states, k - 1), |states[k].occupied|)
  }

  /** next_sector / 8 is the peak number of slots in use: a new slot is issued only when all others are taken. */
  lemma PeakStep(s: SwapState, op: Op, s': SwapState, saved: map<nat, Page>, saved': map<nat, Page>)
    requires Valid(s, saved) && Step(s, op, s') && Valid(s', saved')
    ensures s'.nextSector == Max(s.nextSector, |s'.occupied| * SLOT_SECTORS)
  {
    hide Holds;
    if op.In? {
      var j :| 0 <= j < |s.occupied| && s.occupied[j] == op.slot && s' == SwappedIn(s, j);
    }
  }

  /** Slots are only issued when none is free: the sectors in use from the front are the peak ever occupied. */
  lemma {:induction false} IssuedIsPeak(states: seq<SwapState>, ops: seq<Op>, k: nat)
    requires Run(states, ops) && k <= |ops|
    ensures states[k].nextSector == Peak(states, k) * SLOT_SECTORS
    decreases k
  {
    hide Valid, Step;
    if k > 0 {
      IssuedIsPeak(states, ops, k - 1);
      RunsStayValid(states, ops, k - 1);
      RunsStayValid(states, ops, k);
      PeakStep(states[k - 1], ops[k - 1], states[k], Live(states, ops, k - 1), Live(states, ops, k));
    }
  }
}
