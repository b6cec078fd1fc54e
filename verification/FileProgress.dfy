/**
 That the interleavings of module FileProtocol get somewhere: no thread at work is ever stuck, growth stops only
 for want of a sector, and what completes is what was begun.
 */
module FileProgress {
  import opened Machine
  import opened FreeSectors
  import opened InodeMap
  import opened InodeCodec
  import opened FileContent
  import opened Inodes
  import opened Space
  import opened FileProtocol
  import opened FileSteps
  import opened FileInterleavings

  // ---------------------------------------------------------------- no thread is stuck

  ghost predicate CanStep(st: State, t: nat) {
    exists op, st' :: Step(st, t, op, st')
  }

  lemma {:induction false} FirstUnused(used: seq<bool>, s: nat) returns (x: nat)
    requires s < |used| && !used[s]
    ensures FirstFree(used, x)
    decreases s
  {
    if v: nat :| v < s && !used[v] {
      x := FirstUnused(used, v);
    } else {
      x := s;
    }
  }

  /** free_map_allocate either finds a sector or fails. */
  lemma FindsOrNot(st: State) returns (x: Option<nat>)
    ensures if x.Some? then Finds(st, x.value) else NothingFound(st)
  {
    x := None;
    if st.saves {
      if s: nat :| s < |st.vol.used| && !st.vol.used[s] {
        var y := FirstUnused(st.vol.used, s);
        x := Some(y);
      }
    }
  }

  lemma CreatorMoves(st: State, owner: Owners, mem: map<int, seq<byte>>, t: nat)
    requires Inv(st, owner, mem) && t < |st.pcs| && (st.pcs[t].Creating? || st.pcs[t].CreateTook? || st.pcs[t].CreateBack?)
    ensures exists op, st' :: Creates(st, t, op, st')
  {
    hide DecodeInode, EncodeInode, Shows;
    assert PcOk(st, owner, mem, t);
    match st.pcs[t]
    case Creating(s, length, d) =>
      if d.length >= length {
        var e := d.(length := Max(0, length));
        assert Creates(st, t, Go, Goto(Wrote(st, s, EncodeInode(e)).(live := st.live + {s}), t, Idle));
      } else {
        var x := FindsOrNot(st);
        if x.Some? {
          assert Creates(st, t, Take(x.value), Goto(Marked(st, x.value, true), t, CreateTook(s, length, d, x.value)));
        } else {
          assert Creates(st, t, Go, Goto(st, t, CreateBack(s, d, 0)));
        }
      }
    case CreateTook(s, length, d, x) =>
      if x > UINT16_MAX {
        assert Creates(st, t, Go, Goto(Marked(st, x, false), t, CreateBack(s, d, 0)));
      } else {
        assert Creates(st, t, Go, Goto(Wrote(st, x, ZeroSector()), t, Creating(s, length, WithBlock(d, x))));
      }
    case CreateBack(s, d, b) =>
      if b < Blocks(d) {
        assert Creates(st, t, Go, Goto(Marked(st, d.direct[b], false), t, CreateBack(s, d, b + 1)));
      } else {
        assert Creates(st, t, Go, Goto(st.(pending := st.pending + {s}), t, Idle));
      }
  }

  lemma GrowerMoves(st: State, owner: Owners, mem: map<int, seq<byte>>, t: nat)
    requires Inv(st, owner, mem) && t < |st.pcs| && (st.pcs[t].Growing? || st.pcs[t].GrowTook?)
    ensures exists op, st' :: Writes(st, t, op, st')
  {
    hide DecodeInode, EncodeInode, Shows;
    assert PcOk(st, owner, mem, t);
    assert FileOk(st, owner, st.pcs[t].i);
    match st.pcs[t]
    case Growing(i, offset, data) =>
      var d := st.open[i].data;
      var x := FindsOrNot(st);
      if d.length < offset + |data| && x.Some? {
        assert Writes(st, t, Take(x.value), Goto(Marked(st, x.value, true), t, GrowTook(i, offset, data, x.value)));
      } else {
        assert Writes(st, t, Go, Goto(SetData(st, i, d.(length := Min(d.length, offset + |data|))), t, Storing(i, offset, data, 0)));
      }
    case GrowTook(i, offset, data, x) =>
      var d := st.open[i].data;
      if x > UINT16_MAX {
        assert Writes(st, t, Go, Goto(Marked(st, x, false), t, Storing(i, offset, data, 0)));
      } else {
        assert Writes(st, t, Go, Goto(SetData(Wrote(st, x, ZeroSector()), i, WithBlock(d, x)), t, Growing(i, offset, data)));
      }
  }

  /** Where a round of a loop finds its sector. */
  lemma BlockThere(st: State, owner: Owners, i: int, pos: nat)
    requires FileOk(st, owner, i) && i in st.open && pos < st.open[i].data.length && Marks(st, owner)
    ensures WfInode(st.open[i].data) && pos / SECTOR_SIZE < NUM_DIRECT
    ensures st.open[i].data.direct[pos / SECTOR_SIZE] < |st.vol.view|
  {
    hide DecodeInode;
    assert pos / SECTOR_SIZE < Blocks(st.open[i].data);
  }

  lemma StorerMoves(st: State, owner: Owners, mem: map<int, seq<byte>>, t: nat)
    requires Inv(st, owner, mem) && t < |st.pcs| && st.pcs[t].Storing?
    ensures exists op, st' :: Writes(st, t, op, st')
  {
    hide DecodeInode, EncodeInode, Shows, Splice, Written;
    assert PcOk(st, owner, mem, t);
    var i, offset, data, w := st.pcs[t].i, st.pcs[t].offset, st.pcs[t].data, st.pcs[t].w;
    assert FileOk(st, owner, i);
    var d := st.open[i].data;
    if w < |data| && offset + w < d.length {
      var pos := offset + w;
      var k := ChunkSize(d.length, pos, |data| - w);
      BlockThere(st, owner, i, pos);
      var s := d.direct[pos / SECTOR_SIZE];
      hide Inv, FileOk;
      assert Writes(st, t, Go, Goto(Wrote(st, s, Splice(st.vol.view[s], pos % SECTOR_SIZE, data[w..w + k])), t, Storing(i, offset, data, w + k)));
    } else {
      assert Writes(st, t, Go, Goto(st, t, Idle));
    }
  }

  lemma ReaderMoves(st: State, owner: Owners, mem: map<int, seq<byte>>, t: nat)
    requires Inv(st, owner, mem) && t < |st.pcs| && st.pcs[t].Reading?
    ensures exists op, st' :: FileProtocol.Reads(st, t, op, st')
  {
    hide DecodeInode, EncodeInode, Shows;
    assert PcOk(st, owner, mem, t);
    var i, offset, size, bytes := st.pcs[t].i, st.pcs[t].offset, st.pcs[t].size, st.pcs[t].bytes;
    assert FileOk(st, owner, i);
    var d := st.open[i].data;
    if |bytes| < size && offset + |bytes| < d.length {
      var pos := offset + |bytes|;
      var k := ChunkSize(d.length, pos, size - |bytes|);
      BlockThere(st, owner, i, pos);
      var s := d.direct[pos / SECTOR_SIZE];
      hide Inv, FileOk;
      assert FileProtocol.Reads(st, t, Go,
               Goto(st, t, Reading(i, offset, size, bytes + st.vol.view[s][pos % SECTOR_SIZE..pos % SECTOR_SIZE + k])));
    } else {
      assert FileProtocol.Reads(st, t, Go, Goto(st, t, Idle));
    }
  }

  lemma DropperMoves(st: State, owner: Owners, mem: map<int, seq<byte>>, t: nat)
    requires Inv(st, owner, mem) && t < |st.pcs| && st.pcs[t].Dropping?
    ensures exists op, st' :: Drops(st, t, op, st')
  {
    assert PcOk(st, owner, mem, t);
    var d, b := st.pcs[t].d, st.pcs[t].b;
    if b < Blocks(d) {
      assert Drops(st, t, Go, Goto(Marked(st, d.direct[b], false), t, Dropping(d, b + 1)));
    } else {
      assert Drops(st, t, Go, Goto(st, t, Idle));
    }
  }

  /** Over every interleaving a thread in the middle of an operation can go on, whatever the others are doing. */
  lemma NobodyIsStuck(states: seq<State>, who: seq<nat>, ops: seq<Op>, n: nat, t: nat)
    requires Run(states, who, ops) && n < |states| && t < |states[n].pcs| && states[n].pcs[t] != Idle
    ensures CanStep(states[n], t)
  {
    var st, mem := states[n], Replay(states, who, ops, n);
    var owner := RunsKeepInv(states, who, ops, n);
    assert WfVolume(st.vol);
    hide Inv, Creates, Writes, FileProtocol.Reads, Drops, Run, Replay;
    var op, st';
    if st.pcs[t].Creating? || st.pcs[t].CreateTook? || st.pcs[t].CreateBack? {
      CreatorMoves(st, owner, mem, t);
      op, st' :| Creates(st, t, op, st');
    } else if st.pcs[t].Growing? || st.pcs[t].GrowTook? {
      GrowerMoves(st, owner, mem, t);
      op, st' :| Writes(st, t, op, st');
    } else if st.pcs[t].Storing? {
      StorerMoves(st, owner, mem, t);
      op, st' :| Writes(st, t, op, st');
    } else if st.pcs[t].Reading? {
      ReaderMoves(st, owner, mem, t);
      op, st' :| FileProtocol.Reads(st, t, op, st');
    } else {
      DropperMoves(st, owner, mem, t);
      op, st' :| Drops(st, t, op, st');
    }
    assert Step(st, t, op, st');
  }

  // ---------------------------------------------------------------- growth stops only for want of a sector

  /** A thread that still has sectors to add. */
  ghost predicate WantsSector(st: State, t: nat)
    requires t < |st.pcs|
  {
    match st.pcs[t]
    case Creating(_, length, d) => d.length < length
    case Growing(i, offset, data) => i in st.open && st.open[i].data.length < offset + |data|
    case _ => false
  }

  /** It gets a sector it can use exactly if the free map can be saved and an unused sector fits 16 bits. */
  lemma TakesIff(st: State, t: nat, op: Op, st': State)
    requires Step(st, t, op, st') && WantsSector(st, t)
    ensures op.Take? && op.x <= UINT16_MAX <==> st.saves && Spare(st.vol.used) > 0
  {
    hide EncodeInode;
    if op.Take? {
      if op.x <= UINT16_MAX {
        CountMarked(st.vol.used, op.x);
      } else {
        NoneFits(st.vol.used, op.x);
      }
    } else if st.saves {
      NoneUnused(st.vol.used);
    }
  }

  /** There is always room for one more sector. */
  ghost predicate Roomy(states: seq<State>) {
    forall k :: 0 <= k < |states| ==> states[k].saves && Spare(states[k].vol.used) > 0
  }

  /** No operation under way has run short of sectors. */
  ghost predicate PcWhole(st: State, pc: Pc) {
    match pc
    case CreateTook(_, _, _, x) => x <= UINT16_MAX
    case CreateBack(_, _, _) => false
    case GrowTook(_, _, _, x) => x <= UINT16_MAX
    case Storing(i, offset, data, _) => i in st.open && offset + |data| <= st.open[i].data.length
    case _ => true
  }

  ghost predicate Whole(st: State) {
    forall u :: 0 <= u < |st.pcs| ==> PcWhole(st, st.pcs[u])
  }

  /** A step moves one thread, and changes no open inode but i. */
  ghost predicate MovesOnly(st: State, t: nat, st': State, i: int) {
    && t < |st.pcs| == |st'.pcs| && st'.pcs == st.pcs[t := st'.pcs[t]]
    && forall j :: j != i && j in st.open ==> j in st'.open && st'.open[j].data == st.open[j].data
  }

  lemma BeginsMovesOnly(st: State, t: nat, op: Op, st': State)
    requires t < |st.pcs| && Begins(st, t, op, st')
    ensures op.AllocSector? || op.FreeSector? || op.BeginCreate? ==> MovesOnly(st, t, st', -1) && st'.open == st.open
    ensures !(op.AllocSector? || op.FreeSector? || op.BeginCreate?) ==>
              (op.Open? || op.Remove? || op.Close? || op.BeginWrite? || op.BeginRead?)
              && MovesOnly(st, t, st', op.i) && (op.i in st.open ==> !Busy(st, op.i))
  {
    hide EncodeInode, DecodeInode, RoundUp;
  }

  lemma WorkMovesOnly(st: State, t: nat, op: Op, st': State)
    requires t < |st.pcs|
    requires Creates(st, t, op, st') || Writes(st, t, op, st') || FileProtocol.Reads(st, t, op, st') || Drops(st, t, op, st')
    ensures !st.pcs[t].Idle?
    ensures if Uses(st.pcs[t]).Some? then MovesOnly(st, t, st', Uses(st.pcs[t]).value) else MovesOnly(st, t, st', -1) && st'.open == st.open
  {
    hide EncodeInode, DecodeInode, Splice, Finds, NothingFound;
    if Creates(st, t, op, st') {
      CreatesMovesOnly(st, t, op, st');
    } else if Writes(st, t, op, st') {
      WritesMovesOnly(st, t, op, st');
    }
  }

  lemma CreatesMovesOnly(st: State, t: nat, op: Op, st': State)
    requires t < |st.pcs| && Creates(st, t, op, st')
    ensures !st.pcs[t].Idle? && Uses(st.pcs[t]).Some? && MovesOnly(st, t, st', Uses(st.pcs[t]).value)
  {
    hide EncodeInode, DecodeInode, Finds, NothingFound, ZeroSector, WithBlock, Blocks, WfInode;
  }

  lemma WritesMovesOnly(st: State, t: nat, op: Op, st': State)
    requires t < |st.pcs| && Writes(st, t, op, st')
    ensures !st.pcs[t].Idle? && Uses(st.pcs[t]).Some? && MovesOnly(st, t, st', Uses(st.pcs[t]).value)
  {
    hide EncodeInode, DecodeInode, Splice, Finds, NothingFound, ZeroSector, WithBlock, Blocks, WfInode, ChunkSize, Min;
  }

  /** The inode in one thread's hands is the same after another's step. */
  lemma OthersKeepInode(st: State, t: nat, op: Op, st': State, u: nat)
    requires Step(st, t, op, st') && Exclusive(st.pcs) && u < |st.pcs| && u != t
    ensures u < |st'.pcs| && st'.pcs[u] == st.pcs[u]
    ensures Uses(st.pcs[u]).Some? && Uses(st.pcs[u]).value in st.open ==>
              var i := Uses(st.pcs[u]).value; i in st'.open && st'.open[i].data == st.open[i].data
  {
    assert Uses(st.pcs[u]).Some? ==> Busy(st, Uses(st.pcs[u]).value);
    assert Uses(st.pcs[u]).Some? ==> Uses(st.pcs[u]) != Uses(st.pcs[t]);
    hide Begins, Creates, Writes, FileProtocol.Reads, Drops;
    if st.pcs[t].Idle? {
      BeginsMovesOnly(st, t, op, st');
    } else {
      WorkMovesOnly(st, t, op, st');
    }
  }

  lemma StepStaysWhole(st: State, owner: Owners, mem: map<int, seq<byte>>, t: nat, op: Op, st': State)
    requires Inv(st, owner, mem) && Step(st, t, op, st') && st.saves && Spare(st.vol.used) > 0
    requires Whole(st)
    ensures Whole(st')
  {
    hide Begins, Creates, Writes, FileProtocol.Reads, Drops, PcWhole, FileOk;
    if WantsSector(st, t) {
      TakesIff(st, t, op, st');
    }
    if op.BeginWrite? && op.i in st.open {
      LengthOk(st, owner, op.i);
    }
    OwnStaysWhole(st, t, op, st');
    forall u | 0 <= u < |st'.pcs| ensures PcWhole(st', st'.pcs[u]) {
      if u != t && u < |st.pcs| {
        OthersKeepInode(st, t, op, st', u);
        OtherStaysWhole(st, st', u);
      }
    }
  }

  lemma LengthOk(st: State, owner: Owners, i: int)
    requires i in st.open && FileOk(st, owner, i)
    ensures st.open[i].data.length >= 0
  {
    hide DecodeInode;
  }

  lemma OtherStaysWhole(st: State, st': State, u: nat)
    requires u < |st.pcs| && u < |st'.pcs| && st'.pcs[u] == st.pcs[u] && PcWhole(st, st.pcs[u])
    requires Uses(st.pcs[u]).Some? && Uses(st.pcs[u]).value in st.open ==>
               var i := Uses(st.pcs[u]).value; i in st'.open && st'.open[i].data == st.open[i].data
    ensures PcWhole(st', st'.pcs[u])
  {
  }

  lemma OwnStaysWhole(st: State, t: nat, op: Op, st': State)
    requires Step(st, t, op, st') && PcWhole(st, st.pcs[t])
    requires WantsSector(st, t) ==> op.Take? && op.x <= UINT16_MAX
    requires op.BeginWrite? && op.i in st.open ==> st.open[op.i].data.length >= 0
    ensures |st'.pcs| == |st.pcs| && PcWhole(st', st'.pcs[t])
  {
    hide EncodeInode, DecodeInode, RoundUp, Finds, NothingFound, Begins, Creates, Writes;
    if st.pcs[t].Idle? {
      BeginsWhole(st, t, op, st');
    } else if Creates(st, t, op, st') {
      CreatesWhole(st, t, op, st');
    } else if Writes(st, t, op, st') {
      WritesWhole(st, t, op, st');
    }
  }

  lemma BeginsWhole(st: State, t: nat, op: Op, st': State)
    requires t < |st.pcs| && st.pcs[t].Idle? && Begins(st, t, op, st')
    requires op.BeginWrite? && op.i in st.open ==> st.open[op.i].data.length >= 0
    ensures |st'.pcs| == |st.pcs| && PcWhole(st', st'.pcs[t])
  {
    hide EncodeInode, DecodeInode, RoundUp, Finds;
  }

  lemma CreatesWhole(st: State, t: nat, op: Op, st': State)
    requires t < |st.pcs| && Creates(st, t, op, st') && PcWhole(st, st.pcs[t])
    requires WantsSector(st, t) ==> op.Take? && op.x <= UINT16_MAX
    ensures |st'.pcs| == |st.pcs| && PcWhole(st', st'.pcs[t])
  {
    hide EncodeInode, DecodeInode, Finds, NothingFound, ZeroSector, WithBlock, Blocks, WfInode;
  }

  lemma WritesWhole(st: State, t: nat, op: Op, st': State)
    requires t < |st.pcs| && Writes(st, t, op, st') && PcWhole(st, st.pcs[t])
    requires WantsSector(st, t) ==> op.Take? && op.x <= UINT16_MAX
    ensures |st'.pcs| == |st.pcs| && PcWhole(st', st'.pcs[t])
  {
    hide EncodeInode, DecodeInode, Splice, Finds, NothingFound, ZeroSector, WithBlock, Blocks, WfInode, ChunkSize;
  }

  lemma StepOfRun(states: seq<State>, who: seq<nat>, ops: seq<Op>, n: nat)
    requires Run(states, who, ops) && n < |ops|
    ensures |states| == |ops| + 1 == |who| + 1 && Step(states[n], who[n], ops[n], states[n + 1])
  {
  }

  lemma {:induction false} RunsStayWhole(states: seq<State>, who: seq<nat>, ops: seq<Op>, n: nat)
    requires Run(states, who, ops) && n < |states| && Roomy(states)
    ensures Whole(states[n])
    decreases n
  {
    if n > 0 {
      StepOfRun(states, who, ops, n - 1);
      assert states[n - 1].saves && Spare(states[n - 1].vol.used) > 0;
      hide Inv, Whole, Step, Replay, Spare, Run, Roomy;
      RunsStayWhole(states, who, ops, n - 1);
      var owner := RunsKeepInv(states, who, ops, n - 1);
      StepStaysWhole(states[n - 1], owner, Replay(states, who, ops, n - 1), who[n - 1], ops[n - 1], states[n]);
    }
  }

  /**
   Over every interleaving in which there is always an unused sector that fits 16 bits and the free map can be
   saved: no creation fails, and every write that completes has stored all its data.
   */
  lemma RoomMeansWhole(states: seq<State>, who: seq<nat>, ops: seq<Op>, n: nat)
    requires Run(states, who, ops) && n < |ops| && Roomy(states)
    ensures who[n] < |states[n].pcs| && !states[n].pcs[who[n]].CreateBack?
    ensures
      var ev := Shown(states[n], who[n], ops[n]);
      ev.DidWrite? ==> ev.w == |ev.data|
  {
    RunsStayWhole(states, who, ops, n);
    assert Whole(states[n]);
    assert Step(states[n], who[n], ops[n], states[n + 1]);
    assert PcWhole(states[n], states[n].pcs[who[n]]);
  }

  // ---------------------------------------------------------------- what completes is what was begun

  /** The operation a thread is in the middle of. */
  function Request(pc: Pc): Option<Op> {
    match pc
    case Creating(s, length, _) => Some(BeginCreate(s, length))
    case CreateTook(s, length, _, _) => Some(BeginCreate(s, length))
    case Growing(i, offset, data) => Some(BeginWrite(i, offset, data))
    case GrowTook(i, offset, data, _) => Some(BeginWrite(i, offset, data))
    case Storing(i, offset, data, _) => Some(BeginWrite(i, offset, data))
    case Reading(i, offset, size, _) => Some(BeginRead(i, offset, size))
    case _ => None
  }

  /** Step j of the run begins the operation that thread t is still in the middle of after n steps. */
  ghost predicate BegunAt(states: seq<State>, who: seq<nat>, ops: seq<Op>, j: nat, n: nat, t: nat, op: Op)
    requires Run(states, who, ops) && n < |states|
  {
    && j < n && who[j] == t && ops[j] == op
    && forall k :: j < k <= n ==> t < |states[k].pcs| && Request(states[k].pcs[t]) == Some(op)
  }

  lemma StepKeepsRequest(st: State, t: nat, op: Op, st': State, u: nat)
    requires Step(st, t, op, st') && u < |st'.pcs| && Request(st'.pcs[u]).Some?
    ensures u < |st.pcs|
    ensures Request(st.pcs[u]) == Request(st'.pcs[u]) || (u == t && st.pcs[u].Idle? && Some(op) == Request(st'.pcs[u]))
  {
    hide Begins, Creates, Writes, FileProtocol.Reads, Drops;
    if st.pcs[t].Idle? {
      BeginsMovesOnly(st, t, op, st');
      if u == t {
        BeginsItsRequest(st, t, op, st');
      }
    } else {
      WorkMovesOnly(st, t, op, st');
      if u == t {
        WorkKeepsRequest(st, t, op, st');
      }
    }
  }

  lemma BeginsItsRequest(st: State, t: nat, op: Op, st': State)
    requires t < |st.pcs| == |st'.pcs| && st.pcs[t].Idle? && Begins(st, t, op, st')
    ensures Request(st'.pcs[t]) == None || Request(st'.pcs[t]) == Some(op)
  {
    hide EncodeInode, DecodeInode, RoundUp, Finds;
  }

  lemma WorkKeepsRequest(st: State, t: nat, op: Op, st': State)
    requires t < |st.pcs| == |st'.pcs|
    requires Creates(st, t, op, st') || Writes(st, t, op, st') || FileProtocol.Reads(st, t, op, st') || Drops(st, t, op, st')
    ensures Request(st'.pcs[t]) == None || Request(st'.pcs[t]) == Request(st.pcs[t])
  {
    hide EncodeInode, DecodeInode, Splice, Finds, NothingFound, ZeroSector, WithBlock, Blocks, WfInode, ChunkSize, Min;
  }

  lemma {:induction false} RequestWasBegun(states: seq<State>, who: seq<nat>, ops: seq<Op>, n: nat, t: nat) returns (j: nat)
    requires Run(states, who, ops) && n < |states| && t < |states[n].pcs| && Request(states[n].pcs[t]).Some?
    ensures BegunAt(states, who, ops, j, n, t, Request(states[n].pcs[t]).value)
    decreases n
  {
    if n == 0 {
      assert false;
    } else {
      assert Step(states[n - 1], who[n - 1], ops[n - 1], states[n]);
      StepKeepsRequest(states[n - 1], who[n - 1], ops[n - 1], states[n], t);
      if Request(states[n - 1].pcs[t]) == Request(states[n].pcs[t]) {
        j := RequestWasBegun(states, who, ops, n - 1, t);
      } else {
        j := n - 1;
      }
    }
  }

  /** What a step reports, in terms of the operation it ends. */
  ghost predicate Answers(ev: Event, op: Op) {
    match ev
    case DidCreate(i, n) => op.BeginCreate? && op.s == i && n == Max(0, op.length)
    case DidWrite(i, _, offset, data, _) => op == BeginWrite(i, offset, data)
    case DidRead(i, offset, size, _) => op == BeginRead(i, offset, size)
    case _ => false
  }

  /** Over every interleaving: what is reported as done answers an operation that the thread began and has been at since. */
  lemma CompletesWhatWasBegun(states: seq<State>, who: seq<nat>, ops: seq<Op>, n: nat) returns (j: nat, op: Op)
    requires Run(states, who, ops) && n < |ops| && who[n] < |states[n].pcs|
    requires
      var ev := Shown(states[n], who[n], ops[n]);
      ev.DidCreate? || ev.DidWrite? || ev.DidRead?
    ensures BegunAt(states, who, ops, j, n, who[n], op) && Answers(Shown(states[n], who[n], ops[n]), op)
  {
    var pc := states[n].pcs[who[n]];
    assert Request(pc).Some?;
    j := RequestWasBegun(states, who, ops, n, who[n]);
    op := Request(pc).value;
  }

  // ---------------------------------------------------------------- openers

  /** The number of openers of inode i. */
  function Openers(st: State, i: int): int { if i in st.open then st.open[i].count else 0 }

  function Occurrences(ops: seq<Op>, op: Op): nat {
    if ops == [] then 0 else Occurrences(ops[..|ops| - 1], op) + if ops[|ops| - 1] == op then 1 else 0
  }

  ghost predicate SameOpeners(st: State, st': State) {
    && st'.open.Keys == st.open.Keys && st'.live >= st.live
    && forall i :: i in st.open ==> st'.open[i].count == st.open[i].count && st'.open[i].removed == st.open[i].removed
  }

  lemma WorkKeepsOpeners(st: State, t: nat, op: Op, st': State)
    requires t < |st.pcs|
    requires Creates(st, t, op, st') || Writes(st, t, op, st') || FileProtocol.Reads(st, t, op, st') || Drops(st, t, op, st')
    ensures SameOpeners(st, st') && (op.Take? || op.Go?)
  {
    hide EncodeInode, DecodeInode, Splice, Finds, NothingFound, ZeroSector, WithBlock, Blocks, WfInode, ChunkSize, Min;
  }

  lemma BeginsCountOpeners(st: State, t: nat, op: Op, st': State, i: int)
    requires t < |st.pcs| && Begins(st, t, op, st') && st.open.Keys <= st.live
    requires forall j :: j in st.open ==> st.open[j].count > 0
    ensures Openers(st', i) == Openers(st, i) + (if op == Open(i) then 1 else if op == Close(i) then -1 else 0)
    ensures i in st.live && i !in st'.live <==> op == Close(i) && i in st.live && Openers(st, i) == 1 && st.open[i].removed
  {
    hide EncodeInode, DecodeInode, RoundUp, Finds;
  }

  lemma CountsPositive(st: State, owner: Owners, mem: map<int, seq<byte>>)
    requires Inv(st, owner, mem)
    ensures st.open.Keys <= st.live && forall j :: j in st.open ==> st.open[j].count > 0
  {
    hide DecodeInode;
    forall j | j in st.open ensures st.open[j].count > 0 {
      assert FileOk(st, owner, j);
    }
  }

  lemma StepCountsOpeners(st: State, owner: Owners, mem: map<int, seq<byte>>, t: nat, op: Op, st': State, i: int)
    requires Inv(st, owner, mem) && Step(st, t, op, st')
    ensures Openers(st', i) == Openers(st, i) + (if op == Open(i) then 1 else if op == Close(i) then -1 else 0)
    ensures i in st.live && i !in st'.live <==> op == Close(i) && i in st.live && Openers(st, i) == 1 && st.open[i].removed
  {
    CountsPositive(st, owner, mem);
    hide Inv, Begins, Creates, Writes, FileProtocol.Reads, Drops;
    if st.pcs[t].Idle? {
      BeginsCountOpeners(st, t, op, st', i);
    } else {
      WorkKeepsOpeners(st, t, op, st');
    }
  }

  /** Over every interleaving an inode has as many openers as it was opened more often than closed. */
  lemma {:induction false} RunsCountOpeners(states: seq<State>, who: seq<nat>, ops: seq<Op>, n: nat, i: int)
    requires Run(states, who, ops) && n < |states|
    ensures Openers(states[n], i) == Occurrences(ops[..n], Open(i)) - Occurrences(ops[..n], Close(i))
    decreases n
  {
    if n > 0 {
      StepOfRun(states, who, ops, n - 1);
      hide Inv, Step, Replay, Run;
      RunsCountOpeners(states, who, ops, n - 1, i);
      var owner := RunsKeepInv(states, who, ops, n - 1);
      assert ops[..n][..n - 1] == ops[..n - 1];
      StepCountsOpeners(states[n - 1], owner, Replay(states, who, ops, n - 1), who[n - 1], ops[n - 1], states[n], i);
    }
  }

  /** Over every interleaving a file goes away exactly when its only opener closes it and it has been removed. */
  lemma LastCloseReleases(states: seq<State>, who: seq<nat>, ops: seq<Op>, n: nat, i: int)
    requires Run(states, who, ops) && n < |ops| && i in states[n].live
    ensures
      i !in states[n + 1].live <==>
        && ops[n] == Close(i)
        && Occurrences(ops[..n], Open(i)) - Occurrences(ops[..n], Close(i)) == 1
        && i in states[n].open && states[n].open[i].removed
  {
    RunsCountOpeners(states, who, ops, n, i);
    var owner := RunsKeepInv(states, who, ops, n);
    StepOfRun(states, who, ops, n);
    hide Inv, Step, Replay, Run;
    StepCountsOpeners(states[n], owner, Replay(states, who, ops, n), who[n], ops[n], states[n + 1], i);
  }
}
