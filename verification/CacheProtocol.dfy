/**
 The buffer cache of file-system/filesys/cache.c under every interleaving of any number of threads.
 A step is what a thread does between two points where another can see a difference: one look at one
 entry while scanning, one lock taken or released, one block transfer, one copy under a block lock.
 Scans read the sector and accessed fields of entries whose block lock they do not hold, as the code does.
 */
module CacheProtocol {
  import opened Machine
  import opened BufferCache

  datatype Request =
    | ReadReq(sector: uint32, offset: nat, size: nat)
    | WriteReq(sector: uint32, offset: nat, data: seq<byte>)
    | ZeroReq(sector: uint32)

  /** Where a thread is. The number is the entry it is scanning, wants or holds. */
  datatype Pc =
    | Idle
    | WantFind(op: Request)            // find_cache_entry, about to take buffer_lock
    | FindScan(op: Request, i: nat)    // holding buffer_lock
    | WantHit(op: Request, i: nat)     // about to take block_lock i
    | CheckHit(op: Request, i: nat)    // holding block_lock i, as in every state below down to Done
    | WantNext(op: Request)            // missed: next_cache_entry, about to take buffer_lock
    | NextScan(op: Request, i: nat)    // holding buffer_lock
    | WantVictim(op: Request, i: nat)  // about to take block_lock i
    | CheckVictim(op: Request, i: nat)
    | Flushed(op: Request, i: nat)     // next_cache_entry has returned i, clean
    | Filling(op: Request, i: nat)     // entry i names the sector, block_read still to come
    | Using(op: Request, i: nat)       // find_cache_entry has returned i
    | Done(op: Request, i: nat)        // copied, about to release block_lock i
    | SaveWant(i: nat)                 // cache_save, about to take block_lock i
    | SaveHold(i: nat)
    | SaveDone(i: nat)

  datatype State = State(
    entries: seq<CacheEntry>,
    locks: seq<Option<nat>>,
    bufferLock: Option<nat>,
    disk: seq<Sector>,
    pcs: seq<Pc>)

  /** What a step shows to the callers of the cache. */
  datatype Event =
    | Silent
    | DidRead(sector: uint32, offset: nat, bytes: seq<byte>)
    | DidWrite(sector: uint32, offset: nat, data: seq<byte>)

  predicate InFlight(pc: Pc) { !(pc.Idle? || pc.SaveWant? || pc.SaveHold? || pc.SaveDone?) }

  function Holds(pc: Pc): Option<nat> {
    if pc.CheckHit? || pc.CheckVictim? || pc.Flushed? || pc.Filling? || pc.Using? || pc.Done?
       || pc.SaveHold? || pc.SaveDone?
    then Some(pc.i) else None
  }

  predicate Missed(pc: Pc) {
    pc.WantNext? || pc.NextScan? || pc.WantVictim? || pc.CheckVictim? || pc.Flushed?
  }

  predicate WfRequest(op: Request, sectors: nat) {
    op.sector < sectors &&
    match op
    case ReadReq(_, offset, size) => offset + size <= SECTOR_SIZE
    case WriteReq(_, offset, data) => offset + |data| <= SECTOR_SIZE
    case ZeroReq(_) => true
  }

  /** No other thread is working on the sector: what callers' locks provide. */
  ghost predicate Alone(st: State, t: nat, sector: int) {
    forall u :: 0 <= u < |st.pcs| && u != t && InFlight(st.pcs[u]) ==> st.pcs[u].op.sector != sector
  }

  function Goto(st: State, t: nat, pc: Pc): State
    requires t < |st.pcs|
  {
    st.(pcs := st.pcs[t := pc])
  }

  ghost predicate Wf(st: State) {
    && |st.entries| == CACHE_SIZE && |st.locks| == CACHE_SIZE && |st.disk| <= NO_SECTOR
    && forall t :: 0 <= t < |st.pcs| ==> WfPc(st.pcs[t], |st.disk|)
  }

  ghost predicate WfPc(pc: Pc, sectors: nat) {
    && (InFlight(pc) ==> WfRequest(pc.op, sectors))
    && (!(pc.Idle? || pc.WantFind? || pc.WantNext?) ==> pc.i < CACHE_SIZE)
  }

  /** The copy of cache_read, cache_write or cache_zero, done on entry i under its lock. */
  function Touched(op: Request, e: CacheEntry): CacheEntry
    requires WfRequest(op, op.sector + 1)
  {
    match op
    case ReadReq(_, _, _) => e.(accessed := true)
    case WriteReq(_, offset, data) => e.(dirty := true, accessed := true, data := Splice(e.data, offset, data))
    case ZeroReq(_) => e.(dirty := true, accessed := true, data := ZeroSector())
  }

  function Shown(op: Request, e: CacheEntry): Event
    requires WfRequest(op, op.sector + 1)
  {
    match op
    case ReadReq(s, offset, size) => DidRead(s, offset, e.data[offset..offset + size])
    case WriteReq(s, offset, data) => DidWrite(s, offset, data)
    case ZeroReq(s) => DidWrite(s, 0, ZeroSector())
  }

  /** Write entry i back to the device if it is dirty. */
  function WriteBack(st: State, i: nat): State
    requires i < |st.entries|
    requires st.entries[i].dirty ==> st.entries[i].sector < |st.disk|
  {
    var e := st.entries[i];
    if e.dirty then
      st.(disk := st.disk[e.sector := e.data], entries := st.entries[i := e.(dirty := false)])
    else st
  }

  /** Thread t takes one step; serial says whether callers keep to one operation a sector. */
  ghost predicate Next(st: State, t: nat, ev: Event, st': State, serial: bool)
    requires Wf(st) && t < |st.pcs|
  {
    match st.pcs[t]
    case Idle =>
      && ev == Silent && |st'.pcs| == |st.pcs| && st' == Goto(st, t, st'.pcs[t])
      && (st'.pcs[t] == SaveWant(0)
          || (st'.pcs[t].WantFind? && WfRequest(st'.pcs[t].op, |st.disk|)
              && (serial ==> Alone(st, t, st'.pcs[t].op.sector))))
    case WantFind(op) =>
      st.bufferLock == None && ev == Silent && st' == Goto(st, t, FindScan(op, 0)).(bufferLock := Some(t))
    case FindScan(op, i) =>
      ev == Silent &&
      if st.entries[i].sector == op.sector then st' == Goto(st, t, WantHit(op, i)).(bufferLock := None)
      else if i + 1 < CACHE_SIZE then st' == Goto(st, t, FindScan(op, i + 1))
      else st' == Goto(st, t, WantNext(op)).(bufferLock := None)
    case WantHit(op, i) =>
      st.locks[i] == None && ev == Silent && st' == Goto(st, t, CheckHit(op, i)).(locks := st.locks[i := Some(t)])
    case CheckHit(op, i) =>
      ev == Silent &&
      if st.entries[i].sector == op.sector then st' == Goto(st, t, Using(op, i))
      else st' == Goto(st, t, WantFind(op)).(locks := st.locks[i := None])
    case WantNext(op) =>
      st.bufferLock == None && ev == Silent && st' == Goto(st, t, NextScan(op, 0)).(bufferLock := Some(t))
    case NextScan(op, i) =>
      ev == Silent &&
      if !st.entries[i].accessed then st' == Goto(st, t, WantVictim(op, i)).(bufferLock := None)
      else
        var cleared := st.(entries := st.entries[i := st.entries[i].(accessed := false)]);
        if i + 1 < CACHE_SIZE then st' == Goto(cleared, t, NextScan(op, i + 1))
        else st' == Goto(cleared, t, WantVictim(op, i)).(bufferLock := None)
    case WantVictim(op, i) =>
      st.locks[i] == None && ev == Silent && st' == Goto(st, t, CheckVictim(op, i)).(locks := st.locks[i := Some(t)])
    case CheckVictim(op, i) =>
      ev == Silent &&
      if st.entries[i].accessed then st' == Goto(st, t, WantNext(op)).(locks := st.locks[i := None])
      else (st.entries[i].dirty ==> st.entries[i].sector < |st.disk|) && st' == Goto(WriteBack(st, i), t, Flushed(op, i))
    case Flushed(op, i) =>
      ev == Silent &&
      st' == Goto(st, t, Filling(op, i)).(entries := st.entries[i := st.entries[i].(sector := op.sector)])
    case Filling(op, i) =>
      ev == Silent &&
      st' == Goto(st, t, Using(op, i)).(entries := st.entries[i := st.entries[i].(data := st.disk[op.sector])])
    case Using(op, i) =>
      ev == Shown(op, st.entries[i]) &&
      st' == Goto(st, t, Done(op, i)).(entries := st.entries[i := Touched(op, st.entries[i])])
    case Done(op, i) =>
      ev == Silent && st' == Goto(st, t, Idle).(locks := st.locks[i := None])
    case SaveWant(i) =>
      st.locks[i] == None && ev == Silent && st' == Goto(st, t, SaveHold(i)).(locks := st.locks[i := Some(t)])
    case SaveHold(i) =>
      && ev == Silent && (st.entries[i].dirty ==> st.entries[i].sector < |st.disk|)
      && st' == Goto(WriteBack(st, i), t, SaveDone(i))
    case SaveDone(i) =>
      ev == Silent &&
      st' == Goto(st, t, if i + 1 < CACHE_SIZE then SaveWant(i + 1) else Idle).(locks := st.locks[i := None])
  }

  ghost predicate Init(st: State) {
    && Wf(st)
    && (forall i :: 0 <= i < CACHE_SIZE ==> st.entries[i].sector == NO_SECTOR && !st.entries[i].dirty && !st.entries[i].accessed)
    && (forall i :: 0 <= i < CACHE_SIZE ==> st.locks[i] == None) && st.bufferLock == None
    && (forall t :: 0 <= t < |st.pcs| ==> st.pcs[t] == Idle)
  }

  // ---------------------------------------------------------------- what readers should see

  /** The sectors as the callers' writes have made them. */
  function Apply(mem: seq<Sector>, ev: Event): (r: seq<Sector>)
    ensures |r| == |mem|
  {
    if ev.DidWrite? && ev.sector < |mem| && ev.offset + |ev.data| <= SECTOR_SIZE then
      mem[ev.sector := Splice(mem[ev.sector], ev.offset, ev.data)]
    else mem
  }

  /** A read shows the sector as it is. */
  ghost predicate Truthful(mem: seq<Sector>, ev: Event) {
    ev.DidRead? ==>
      && ev.sector < |mem| && ev.offset + |ev.bytes| <= SECTOR_SIZE
      && ev.bytes == mem[ev.sector][ev.offset..ev.offset + |ev.bytes|]
  }

  // ---------------------------------------------------------------- the invariant

  ghost predicate LocksOk(st: State)
    requires Wf(st)
  {
    && (forall t :: 0 <= t < |st.pcs| && Holds(st.pcs[t]).Some? ==> st.locks[Holds(st.pcs[t]).value] == Some(t))
    && (forall i :: 0 <= i < CACHE_SIZE && st.locks[i].Some? ==>
          st.locks[i].value < |st.pcs| && Holds(st.pcs[st.locks[i].value]) == Some(i))
  }

  ghost predicate Serial(st: State) {
    forall t, u :: 0 <= t < u < |st.pcs| && InFlight(st.pcs[t]) && InFlight(st.pcs[u]) ==>
      st.pcs[t].op.sector != st.pcs[u].op.sector
  }

  /** Entry i has been given its sector but not yet that sector's data. */
  ghost predicate BeingFilled(st: State, i: nat)
    requires i < |st.locks|
  {
    st.locks[i].Some? && st.locks[i].value < |st.pcs| && st.pcs[st.locks[i].value].Filling?
  }

  ghost predicate Unique(es: seq<CacheEntry>) {
    forall i, j :: 0 <= i < j < |es| && es[i].sector == es[j].sector ==> es[i].sector == NO_SECTOR
  }

  ghost predicate EntriesOk(st: State, mem: seq<Sector>)
    requires Wf(st) && |mem| == |st.disk|
  {
    forall i :: 0 <= i < CACHE_SIZE ==> EntryAgrees(st, mem, i)
  }

  /** A filled entry holds its sector's contents; a clean or unfilled one has them on the device. */
  ghost predicate EntryAgrees(st: State, mem: seq<Sector>, i: nat)
    requires Wf(st) && |mem| == |st.disk| && i < CACHE_SIZE
  {
    var e := st.entries[i];
    if e.sector == NO_SECTOR then !e.dirty
    else
      && e.sector < |mem|
      && (BeingFilled(st, i) ==> !e.dirty)
      && (!BeingFilled(st, i) ==> e.data == mem[e.sector])
      && (!e.dirty ==> st.disk[e.sector] == mem[e.sector])
  }

  ghost predicate DiskOk(st: State, mem: seq<Sector>)
    requires |mem| == |st.disk|
  {
    forall s :: 0 <= s < |mem| && !Cached(st.entries, s) ==> st.disk[s] == mem[s]
  }

  /** What a thread knows where it stands. */
  ghost predicate ThreadOk(st: State, pc: Pc)
    requires Wf(st)
  {
    && (Missed(pc) ==> !Cached(st.entries, pc.op.sector))
    && (pc.FindScan? ==> forall j :: 0 <= j < pc.i && j < CACHE_SIZE ==> st.entries[j].sector != pc.op.sector)
    && (pc.Flushed? ==> pc.i < CACHE_SIZE && !st.entries[pc.i].dirty)
    && ((pc.Filling? || pc.Using?) ==> pc.i < CACHE_SIZE && st.entries[pc.i].sector == pc.op.sector)
  }

  ghost predicate Inv(st: State, mem: seq<Sector>) {
    && Wf(st) && |mem| == |st.disk|
    && LocksOk(st) && Serial(st) && Unique(st.entries)
    && EntriesOk(st, mem) && DiskOk(st, mem)
    && forall t :: 0 <= t < |st.pcs| ==> ThreadOk(st, st.pcs[t])
  }

  // ---------------------------------------------------------------- every step keeps the invariant

  /** In outline, a step moves one thread, which keeps its request while it has one... */
  ghost predicate MovesThread(st: State, t: nat, st': State)
    requires t < |st.pcs|
  {
    && |st'.pcs| == |st.pcs| && st'.pcs == st.pcs[t := st'.pcs[t]]
    && |st'.entries| == |st.entries| && |st'.disk| == |st.disk|
    && WfPc(st'.pcs[t], |st.disk|)
    && (InFlight(st.pcs[t]) && InFlight(st'.pcs[t]) ==> st'.pcs[t].op == st.pcs[t].op)
  }

  /** ... and which may take one free block lock or release the one it holds. */
  ghost predicate MovesLock(st: State, t: nat, st': State)
    requires t < |st.pcs| && |st.locks| == CACHE_SIZE && |st'.pcs| == |st.pcs|
  {
    var h, h' := Holds(st.pcs[t]), Holds(st'.pcs[t]);
    || (h == h' && st'.locks == st.locks)
    || (h == None && h'.Some? && h'.value < CACHE_SIZE && st.locks[h'.value] == None
        && st'.locks == st.locks[h'.value := Some(t)])
    || (h' == None && h.Some? && h.value < CACHE_SIZE && st'.locks == st.locks[h.value := None])
  }

  lemma NextMovesThread(st: State, t: nat, ev: Event, st': State, serial: bool)
    requires Wf(st) && t < |st.pcs| && Next(st, t, ev, st', serial)
    ensures MovesThread(st, t, st')
  {
    assert WfPc(st.pcs[t], |st.disk|);
  }

  lemma NextMovesLock(st: State, t: nat, ev: Event, st': State, serial: bool)
    requires Wf(st) && t < |st.pcs| && Next(st, t, ev, st', serial) && |st'.pcs| == |st.pcs|
    ensures MovesLock(st, t, st')
  {
    assert WfPc(st.pcs[t], |st.disk|);
  }

  lemma MovesKeepLocks(st: State, t: nat, st': State)
    requires Wf(st) && LocksOk(st) && t < |st.pcs| && MovesThread(st, t, st') && MovesLock(st, t, st')
    ensures Wf(st') && LocksOk(st')
  {
    forall i | 0 <= i < CACHE_SIZE && st'.locks[i].Some?
      ensures st'.locks[i].value < |st'.pcs| && Holds(st'.pcs[st'.locks[i].value]) == Some(i)
    {
      if st'.locks[i].value != t {
        assert st.locks[i] == st'.locks[i];
      }
    }
  }

  /** Lock ownership survives every step. */
  lemma LocksKept(st: State, t: nat, ev: Event, st': State)
    requires Wf(st) && LocksOk(st) && t < |st.pcs| && Next(st, t, ev, st', true)
    ensures Wf(st') && LocksOk(st') && |st'.pcs| == |st.pcs| && |st'.disk| == |st.disk|
    ensures forall u :: 0 <= u < |st.pcs| && u != t ==> st'.pcs[u] == st.pcs[u]
  {
    NextMovesThread(st, t, ev, st', true);
    NextMovesLock(st, t, ev, st', true);
    MovesKeepLocks(st, t, st');
  }

  /** A thread starts an operation only on a sector nobody else works on, and fills only what it has claimed. */
  lemma NextStarts(st: State, t: nat, ev: Event, st': State)
    requires Wf(st) && t < |st.pcs| && Next(st, t, ev, st', true)
    ensures t < |st'.pcs|
    ensures !InFlight(st.pcs[t]) && InFlight(st'.pcs[t]) ==> Alone(st, t, st'.pcs[t].op.sector)
    ensures st'.pcs[t].Filling? <==> st.pcs[t].Flushed?
  {
  }

  lemma MovesKeepSerial(st: State, t: nat, st': State)
    requires Serial(st) && t < |st.pcs| && MovesThread(st, t, st')
    requires !InFlight(st.pcs[t]) && InFlight(st'.pcs[t]) ==> Alone(st, t, st'.pcs[t].op.sector)
    ensures Serial(st')
  {
  }

  lemma SerialKept(st: State, t: nat, ev: Event, st': State)
    requires Wf(st) && Serial(st) && t < |st.pcs| && Next(st, t, ev, st', true)
    ensures Serial(st')
  {
    NextMovesThread(st, t, ev, st', true);
    NextStarts(st, t, ev, st');
    MovesKeepSerial(st, t, st');
  }

  lemma MovesKeepFilled(st: State, t: nat, st': State, i: nat)
    requires Wf(st) && LocksOk(st) && t < |st.pcs| && MovesThread(st, t, st') && MovesLock(st, t, st') && i < CACHE_SIZE
    requires st'.pcs[t].Filling? <==> st.pcs[t].Flushed?
    ensures Wf(st')
    ensures BeingFilled(st', i) <==>
            if Holds(st.pcs[t]) == Some(i) && st.pcs[t].Flushed? then true
            else if Holds(st.pcs[t]) == Some(i) && st.pcs[t].Filling? then false
            else BeingFilled(st, i)
  {
    MovesKeepLocks(st, t, st');
  }

  /** Only the thread that claims or fills an entry changes whether it is being filled. */
  lemma FilledKept(st: State, t: nat, ev: Event, st': State, i: nat)
    requires Wf(st) && LocksOk(st) && t < |st.pcs| && Next(st, t, ev, st', true) && i < CACHE_SIZE
    ensures Wf(st')
    ensures BeingFilled(st', i) <==>
            if Holds(st.pcs[t]) == Some(i) && st.pcs[t].Flushed? then true
            else if Holds(st.pcs[t]) == Some(i) && st.pcs[t].Filling? then false
            else BeingFilled(st, i)
  {
    NextMovesThread(st, t, ev, st', true);
    NextMovesLock(st, t, ev, st', true);
    NextStarts(st, t, ev, st');
    MovesKeepFilled(st, t, st', i);
  }

  /** Apart from accessed bits, a step changes an entry only under its lock, and its sector only when claiming. */
  lemma EntriesKept(st: State, t: nat, ev: Event, st': State, i: nat)
    requires Wf(st) && t < |st.pcs| && Next(st, t, ev, st', true) && i < CACHE_SIZE
    ensures |st'.entries| == CACHE_SIZE
    ensures Holds(st.pcs[t]) != Some(i) ==> st'.entries[i] == st.entries[i].(accessed := st'.entries[i].accessed)
    ensures !st.pcs[t].Flushed? ==> st'.entries[i].sector == st.entries[i].sector
  {
  }

  /** A step that claims no entry caches the same sectors as before. */
  lemma CachedKept(st: State, t: nat, ev: Event, st': State)
    requires Wf(st) && t < |st.pcs| && Next(st, t, ev, st', true) && !st.pcs[t].Flushed?
    ensures |st'.entries| == CACHE_SIZE
    ensures forall s :: Cached(st'.entries, s) == Cached(st.entries, s)
    ensures Unique(st.entries) ==> Unique(st'.entries)
  {
    forall i | 0 <= i < CACHE_SIZE ensures st'.entries[i].sector == st.entries[i].sector {
      EntriesKept(st, t, ev, st', i);
    }
    forall s ensures Cached(st'.entries, s) == Cached(st.entries, s) {
      SectorsMatch(st.entries, st'.entries, s);
    }
  }

  /** Another thread's knowledge survives the step. */
  lemma OtherThreadKept(st: State, t: nat, ev: Event, st': State, u: nat, mem: seq<Sector>)
    requires Inv(st, mem) && t < |st.pcs| && Next(st, t, ev, st', true) && u < |st.pcs| && u != t
    ensures Wf(st') && |st'.pcs| == |st.pcs| && ThreadOk(st', st'.pcs[u])
  {
    LocksKept(st, t, ev, st');
    var pc := st.pcs[u];
    assert ThreadOk(st, pc);
    if Holds(pc).Some? {
      EntriesKept(st, t, ev, st', pc.i);
    }
    if st.pcs[t].Flushed? {
      if InFlight(pc) {
        ClaimHidesNothing(st, t, ev, st', pc);
      }
    } else {
      CachedKept(st, t, ev, st');
      if pc.FindScan? {
        forall j | 0 <= j < pc.i && j < CACHE_SIZE ensures st'.entries[j].sector != pc.op.sector {
          EntriesKept(st, t, ev, st', j);
        }
      }
    }
  }

  /** Claiming an entry for one sector caches no other. */
  lemma ClaimHidesNothing(st: State, t: nat, ev: Event, st': State, pc: Pc)
    requires Wf(st) && t < |st.pcs| && Next(st, t, ev, st', true) && st.pcs[t].Flushed?
    requires InFlight(pc) && pc.op.sector != st.pcs[t].op.sector && ThreadOk(st, pc)
    ensures Missed(pc) ==> !Cached(st'.entries, pc.op.sector)
    ensures pc.FindScan? ==> forall j :: 0 <= j < pc.i && j < CACHE_SIZE && j < |st'.entries| ==> st'.entries[j].sector != pc.op.sector
  {
    if Missed(pc) {
      OnlyClaimCaches(st.entries, st.pcs[t].i, st.pcs[t].op.sector, pc.op.sector);
    }
  }

  lemma ClaimUncaches(es: seq<CacheEntry>, i: nat, s: uint32, x: int)
    requires i < |es| && !Cached(es[i := es[i].(sector := s)], x)
    ensures !Cached(es, x) || es[i].sector == x
  {
    forall j | 0 <= j < |es| && es[j].sector == x ensures j == i {
      assert es[i := es[i].(sector := s)][j].sector == if j == i then s else x;
    }
  }

  lemma OnlyClaimCaches(es: seq<CacheEntry>, i: nat, s: uint32, x: int)
    requires i < |es| && x != s && !Cached(es, x)
    ensures !Cached(es[i := es[i].(sector := s)], x)
  {
    var es' := es[i := es[i].(sector := s)];
    forall j | 0 <= j < |es'| ensures es'[j].sector != x {
      assert es'[j].sector == if j == i then s else es[j].sector;
    }
  }

  /** Entry i still agrees with what the callers wrote, when t does not hold it. */
  lemma OtherEntryKept(st: State, t: nat, ev: Event, st': State, i: nat, mem: seq<Sector>)
    requires Inv(st, mem) && t < |st.pcs| && Next(st, t, ev, st', true) && i < CACHE_SIZE
    requires Holds(st.pcs[t]) != Some(i)
    requires |st'.disk| == |mem|
    requires forall s :: 0 <= s < |mem| && s == st.entries[i].sector ==> st'.disk[s] == st.disk[s]
    ensures Wf(st') && EntryAgrees(st', mem, i)
  {
    LocksKept(st, t, ev, st');
    FilledKept(st, t, ev, st', i);
    EntriesKept(st, t, ev, st', i);
    assert EntryAgrees(st, mem, i);
  }

  ghost predicate SameData(st: State, st': State) {
    && st'.disk == st.disk && |st.entries| == |st'.entries|
    && forall i :: 0 <= i < |st.entries| ==> st'.entries[i] == st.entries[i].(accessed := st'.entries[i].accessed)
  }

  lemma QuietIsSame(st: State, t: nat, ev: Event, st': State)
    requires Wf(st) && t < |st.pcs| && Next(st, t, ev, st', true)
    requires st.pcs[t].CheckVictim? ==> st.pcs[t].i < CACHE_SIZE && st.entries[st.pcs[t].i].accessed
    requires !st.pcs[t].Using? && !st.pcs[t].Flushed? && !st.pcs[t].Filling? && !st.pcs[t].SaveHold?
    ensures SameData(st, st') && t < |st'.pcs| && !st'.pcs[t].Flushed?
  {
  }

  /** Steps that leave device and cached data alone: scanning, locking, retrying, releasing. */
  lemma QuietKeeps(st: State, t: nat, ev: Event, st': State, mem: seq<Sector>)
    requires Inv(st, mem) && t < |st.pcs| && Next(st, t, ev, st', true)
    requires SameData(st, st') && t < |st'.pcs|
    requires !st.pcs[t].Using? && !st.pcs[t].Flushed? && !st.pcs[t].Filling? && !st'.pcs[t].Flushed?
    ensures Inv(st', mem)
  {
    hide Next, LocksOk, Serial;
    LocksKept(st, t, ev, st');
    SerialKept(st, t, ev, st');
    CachedKept(st, t, ev, st');
    forall i | 0 <= i < CACHE_SIZE ensures EntryAgrees(st', mem, i) {
      FilledKept(st, t, ev, st', i);
      assert EntryAgrees(st, mem, i);
    }
    forall u | 0 <= u < |st'.pcs| ensures ThreadOk(st', st'.pcs[u]) {
      if u != t { OtherThreadKept(st, t, ev, st', u, mem); }
      else { OwnThreadQuiet(st, t, ev, st', mem); }
    }
  }

  lemma OwnThreadQuiet(st: State, t: nat, ev: Event, st': State, mem: seq<Sector>)
    requires Inv(st, mem) && t < |st.pcs| && Next(st, t, ev, st', true)
    requires !st.pcs[t].Using? && !st.pcs[t].Flushed? && !st.pcs[t].Filling? && !st'.pcs[t].Flushed?
    ensures Wf(st') && |st'.pcs| == |st.pcs| && ThreadOk(st', st'.pcs[t])
  {
    hide Next, LocksOk;
    LocksKept(st, t, ev, st');
    CachedKept(st, t, ev, st');
    OwnSteps(st, t, ev, st');
    assert ThreadOk(st, st.pcs[t]);
    var pc, pc' := st.pcs[t], st'.pcs[t];
    if pc.FindScan? {
      forall j | 0 <= j < CACHE_SIZE ensures st'.entries[j].sector == st.entries[j].sector {
        EntriesKept(st, t, ev, st', j);
      }
    }
  }

  /** How a thread comes to know something without claiming, flushing or filling an entry. */
  lemma OwnSteps(st: State, t: nat, ev: Event, st': State)
    requires Wf(st) && t < |st.pcs| && Next(st, t, ev, st', true)
    requires !st.pcs[t].Using? && !st.pcs[t].Flushed? && !st.pcs[t].Filling?
    ensures t < |st'.pcs|
    ensures
      var pc, pc' := st.pcs[t], st'.pcs[t];
      && (Missed(pc') && !Missed(pc) ==> pc.FindScan? && pc.i == CACHE_SIZE - 1 && pc'.op == pc.op
                                         && st.entries[pc.i].sector != pc.op.sector)
      && (Missed(pc') && Missed(pc) ==> pc'.op == pc.op)
      && (pc'.FindScan? && pc.FindScan? ==>
            pc'.op == pc.op && pc'.i == pc.i + 1 && pc.i < CACHE_SIZE && st.entries[pc.i].sector != pc.op.sector)
      && (pc'.FindScan? && !pc.FindScan? ==> pc'.i == 0)
      && !pc'.Filling?
      && (pc'.Using? ==> st'.entries == st.entries && pc'.i < CACHE_SIZE && st.entries[pc'.i].sector == pc'.op.sector)
  {
    match st.pcs[t]
    case FindScan(op, i) =>
    case CheckHit(op, i) =>
    case NextScan(op, i) =>
    case _ =>
  }

  /** Eviction and write-behind: the entry's data reaches the device. */
  lemma WriteBackKeeps(st: State, t: nat, ev: Event, st': State, mem: seq<Sector>)
    requires Inv(st, mem) && t < |st.pcs| && Next(st, t, ev, st', true)
    requires st.pcs[t].SaveHold? || (st.pcs[t].CheckVictim? && st'.pcs[t].Flushed?)
    ensures Inv(st', mem)
  {
    LocksKept(st, t, ev, st');
    SerialKept(st, t, ev, st');
    CachedKept(st, t, ev, st');
    var k := st.pcs[t].i;
    assert EntryAgrees(st, mem, k) && !BeingFilled(st, k);
    forall i | 0 <= i < CACHE_SIZE ensures EntryAgrees(st', mem, i) {
      if i == k {
        FilledKept(st, t, ev, st', i);
      } else {
        OtherEntryKept(st, t, ev, st', i, mem);
      }
    }
    assert st.entries[k].dirty ==> Cached(st.entries, st.entries[k].sector);
    forall u | 0 <= u < |st'.pcs| ensures ThreadOk(st', st'.pcs[u]) {
      if u != t { OtherThreadKept(st, t, ev, st', u, mem); }
      else { assert ThreadOk(st, st.pcs[t]); }
    }
  }

  /** Giving a clean entry to a sector that is not cached. */
  lemma ClaimKeeps(st: State, t: nat, ev: Event, st': State, mem: seq<Sector>)
    requires Inv(st, mem) && t < |st.pcs| && Next(st, t, ev, st', true)
    requires st.pcs[t].Flushed?
    ensures Inv(st', mem)
  {
    LocksKept(st, t, ev, st');
    SerialKept(st, t, ev, st');
    var k, s := st.pcs[t].i, st.pcs[t].op.sector;
    assert ThreadOk(st, st.pcs[t]);
    assert EntryAgrees(st, mem, k);
    assert forall j :: 0 <= j < CACHE_SIZE ==> st.entries[j].sector != s;
    forall i | 0 <= i < CACHE_SIZE ensures EntryAgrees(st', mem, i) {
      if i == k {
        FilledKept(st, t, ev, st', i);
      } else {
        OtherEntryKept(st, t, ev, st', i, mem);
      }
    }
    assert st'.entries[k].sector == s;
    forall x | 0 <= x < |mem| && !Cached(st'.entries, x) ensures st'.disk[x] == mem[x] {
      ClaimUncaches(st.entries, k, s, x);
    }
    forall u | 0 <= u < |st'.pcs| ensures ThreadOk(st', st'.pcs[u]) {
      if u != t { OtherThreadKept(st, t, ev, st', u, mem); }
    }
  }

  lemma FillKeeps(st: State, t: nat, ev: Event, st': State, mem: seq<Sector>)
    requires Inv(st, mem) && t < |st.pcs| && Next(st, t, ev, st', true)
    requires st.pcs[t].Filling?
    ensures Inv(st', mem)
  {
    LocksKept(st, t, ev, st');
    SerialKept(st, t, ev, st');
    CachedKept(st, t, ev, st');
    var k := st.pcs[t].i;
    assert ThreadOk(st, st.pcs[t]);
    assert EntryAgrees(st, mem, k) && BeingFilled(st, k);
    forall i | 0 <= i < CACHE_SIZE ensures EntryAgrees(st', mem, i) {
      if i == k {
        FilledKept(st, t, ev, st', i);
      } else {
        OtherEntryKept(st, t, ev, st', i, mem);
      }
    }
    forall u | 0 <= u < |st'.pcs| ensures ThreadOk(st', st'.pcs[u]) {
      if u != t { OtherThreadKept(st, t, ev, st', u, mem); }
    }
  }

  lemma TouchIs(st: State, t: nat, ev: Event, st': State)
    requires Wf(st) && t < |st.pcs| && Next(st, t, ev, st', true) && st.pcs[t].Using?
    ensures
      var k, op := st.pcs[t].i, st.pcs[t].op;
      && k < CACHE_SIZE && WfRequest(op, |st.disk|) && ev == Shown(op, st.entries[k])
      && st' == Goto(st, t, Done(op, k)).(entries := st.entries[k := Touched(op, st.entries[k])])
  {
    assert WfPc(st.pcs[t], |st.disk|);
  }

  lemma TouchEntries(st: State, t: nat, ev: Event, st': State, mem: seq<Sector>)
    requires Inv(st, mem) && t < |st.pcs| && Next(st, t, ev, st', true)
    requires st.pcs[t].Using?
    ensures Wf(st') && |st'.disk| == |st.disk|
    ensures EntriesOk(st', Apply(mem, ev)) && DiskOk(st', Apply(mem, ev)) && Truthful(mem, ev)
  {
    hide Next, Serial;
    TouchIs(st, t, ev, st');
    LocksKept(st, t, ev, st');
    CachedKept(st, t, ev, st');
    var k, op := st.pcs[t].i, st.pcs[t].op;
    assert ThreadOk(st, st.pcs[t]);
    assert EntryAgrees(st, mem, k) && !BeingFilled(st, k);
    var mem' := Apply(mem, ev);
    assert Cached(st.entries, op.sector);
    forall i | 0 <= i < CACHE_SIZE ensures EntryAgrees(st', mem', i) {
      if i == k {
        FilledKept(st, t, ev, st', i);
      } else {
        OtherEntryKept(st, t, ev, st', i, mem);
        assert st'.entries[i].sector != NO_SECTOR ==> st'.entries[i].sector != op.sector;
      }
    }
  }

  /** The copy: the one step that readers and writers see. */
  lemma TouchKeeps(st: State, t: nat, ev: Event, st': State, mem: seq<Sector>)
    requires Inv(st, mem) && t < |st.pcs| && Next(st, t, ev, st', true)
    requires st.pcs[t].Using?
    ensures Inv(st', Apply(mem, ev)) && Truthful(mem, ev)
  {
    hide Next, Serial, EntryAgrees, Touched, Shown, Truthful, DiskOk;
    TouchIs(st, t, ev, st');
    LocksKept(st, t, ev, st');
    SerialKept(st, t, ev, st');
    CachedKept(st, t, ev, st');
    TouchEntries(st, t, ev, st', mem);
    forall u | 0 <= u < |st'.pcs| ensures ThreadOk(st', st'.pcs[u]) {
      if u != t { OtherThreadKept(st, t, ev, st', u, mem); }
    }
  }

  /** Every step of every thread keeps the invariant, and what a read shows is what was last written. */
  lemma StepKeeps(st: State, t: nat, ev: Event, st': State, mem: seq<Sector>)
    requires Inv(st, mem) && t < |st.pcs| && Next(st, t, ev, st', true)
    ensures Inv(st', Apply(mem, ev)) && Truthful(mem, ev)
  {
    match st.pcs[t]
    case CheckVictim(op, i) =>
      if st.entries[i].accessed {
        QuietIsSame(st, t, ev, st');
        QuietKeeps(st, t, ev, st', mem);
      } else {
        WriteBackKeeps(st, t, ev, st', mem);
      }
    case SaveHold(i) => WriteBackKeeps(st, t, ev, st', mem);
    case Flushed(op, i) => ClaimKeeps(st, t, ev, st', mem);
    case Filling(op, i) => FillKeeps(st, t, ev, st', mem);
    case Using(op, i) => TouchKeeps(st, t, ev, st', mem);
    case _ =>
      QuietIsSame(st, t, ev, st');
      QuietKeeps(st, t, ev, st', mem);
  }

  // ---------------------------------------------------------------- whole runs

  /** The sectors after the writes among these events. */
  function Replay(mem: seq<Sector>, evs: seq<Event>): (r: seq<Sector>)
    ensures |r| == |mem|
  {
    if evs == [] then mem else Apply(Replay(mem, evs[..|evs| - 1]), evs[|evs| - 1])
  }

  /** A run from cache_init: thread who[k] takes step k, showing evs[k]. */
  ghost predicate Run(states: seq<State>, who: seq<nat>, evs: seq<Event>) {
    && |states| == |evs| + 1 && |who| == |evs| && Init(states[0])
    && forall k :: 0 <= k < |evs| ==>
         Wf(states[k]) && who[k] < |states[k].pcs| && Next(states[k], who[k], evs[k], states[k + 1], true)
  }

  lemma {:induction false} RunsKeepInv(states: seq<State>, who: seq<nat>, evs: seq<Event>, n: nat)
    requires Run(states, who, evs) && n < |states|
    ensures Inv(states[n], Replay(states[0].disk, evs[..n]))
    decreases n
  {
    if n == 0 {
      assert evs[..0] == [];
    } else {
      RunsKeepInv(states, who, evs, n - 1);
      assert evs[..n][..n - 1] == evs[..n - 1];
      StepKeeps(states[n - 1], who[n - 1], evs[n - 1], states[n], Replay(states[0].disk, evs[..n - 1]));
    }
  }

  /** Each clean entry with a sector, unless it is just being filled, is a copy of the device. */
  ghost predicate CleanIsCopy(st: State)
    requires Wf(st)
  {
    forall i :: 0 <= i < CACHE_SIZE && st.entries[i].sector != NO_SECTOR && !st.entries[i].dirty && !BeingFilled(st, i) ==>
      st.entries[i].sector < |st.disk| && st.entries[i].data == st.disk[st.entries[i].sector]
  }

  lemma InvMeansCopy(st: State, mem: seq<Sector>)
    requires Inv(st, mem)
    ensures CleanIsCopy(st)
  {
    forall i | 0 <= i < CACHE_SIZE && st.entries[i].sector != NO_SECTOR && !st.entries[i].dirty && !BeingFilled(st, i)
      ensures st.entries[i].sector < |st.disk| && st.entries[i].data == st.disk[st.entries[i].sector]
    {
      assert EntryAgrees(st, mem, i);
    }
  }

  /** In every interleaving with one operation at a time per sector: no sector is cached twice and clean entries equal the device. */
  lemma RunsAreCoherent(states: seq<State>, who: seq<nat>, evs: seq<Event>, n: nat)
    requires Run(states, who, evs) && n < |states|
    ensures Unique(states[n].entries) && Wf(states[n]) && CleanIsCopy(states[n])
  {
    RunsKeepInv(states, who, evs, n);
    InvMeansCopy(states[n], Replay(states[0].disk, evs[..n]));
  }

  /** And each read returns the last writes to its sector, across evictions, retries and write-behind. */
  lemma ReadsSeeLastWrites(states: seq<State>, who: seq<nat>, evs: seq<Event>, n: nat)
    requires Run(states, who, evs) && n < |evs|
    ensures Truthful(Replay(states[0].disk, evs[..n]), evs[n])
  {
    RunsKeepInv(states, who, evs, n);
    StepKeeps(states[n], who[n], evs[n], states[n + 1], Replay(states[0].disk, evs[..n]));
  }

  /** Between operations the protocol's state is one that class Cache's contracts speak of, with the same view. */
  lemma QuiescentIsCache(st: State, mem: seq<Sector>)
    requires Inv(st, mem) && forall t :: 0 <= t < |st.pcs| ==> st.pcs[t] == Idle
    ensures Consistent(st.entries, st.disk) && CacheView(st.entries, st.disk) == mem
  {
    forall i | 0 <= i < CACHE_SIZE ensures EntryAgrees(st, mem, i) && !BeingFilled(st, i) && EntryOk(st.entries[i], st.disk) {
      assert EntryAgrees(st, mem, i);
    }
    forall s | 0 <= s < |mem| ensures Current(st.entries, st.disk, s) == mem[s] {
      if Cached(st.entries, s) {
        var i :| 0 <= i < |st.entries| && st.entries[i].sector == s && Current(st.entries, st.disk, s) == st.entries[i].data;
        assert EntryAgrees(st, mem, i);
      }
    }
  }

  /** The block_write of an eviction or of cache_save never misses the device: what it is guarded by always holds. */
  lemma WriteBackHasSector(st: State, mem: seq<Sector>, t: nat)
    requires Inv(st, mem) && t < |st.pcs| && (st.pcs[t].CheckVictim? || st.pcs[t].SaveHold?)
    ensures st.pcs[t].i < CACHE_SIZE
    ensures st.entries[st.pcs[t].i].dirty ==> st.entries[st.pcs[t].i].sector < |st.disk|
  {
    assert WfPc(st.pcs[t], |st.disk|);
    assert EntryAgrees(st, mem, st.pcs[t].i);
  }
}
