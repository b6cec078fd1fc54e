/**
 Conservation of sectors over every interleaving of module FileProtocol: a marked sector has a role, or it was a
 block that a file had grown by and forgot at its last close (file-system/filesys/inode.c:255-283), which nobody
 gives back.
 */
module FileConservation {
  import opened Machine
  import opened FreeSectors
  import opened InodeMap
  import opened InodeCodec
  import opened FileContent
  import opened Inodes
  import FileRuns
  import opened FileProtocol
  import opened FileSteps
  import opened FileInterleavings
  import opened FileProgress

  /** Block b of some live file is sector x. */
  ghost predicate LiveBlock(st: State, i: int, b: nat, x: int) {
    i in st.live && 0 <= i < |st.vol.view| && BlockIs(Data(st, i), b, x)
  }

  /** x is pending, or the inode or a block of a live file. */
  ghost predicate Placed(st: State, x: int) {
    x in st.pending || x in st.live || exists i, b :: LiveBlock(st, i, b, x)
  }

  /** x is the inode or a block a thread is making or dropping, or just allocated. */
  ghost predicate InHand(pc: Pc, x: int) {
    || ((pc.Creating? || pc.CreateTook? || pc.CreateBack?) && pc.s == x)
    || (exists b :: BlockLeft(pc, b, x))
    || ((pc.CreateTook? || pc.GrowTook?) && pc.x == x)
  }

  ghost predicate InUse(st: State, x: int) {
    Placed(st, x) || exists u :: 0 <= u < |st.pcs| && InHand(st.pcs[u], x)
  }

  /** Being in use is having a role. */
  lemma InUseIff(st: State, x: int)
    ensures InUse(st, x) <==> exists o :: Claims(st, o, x)
  {
    if x in st.pending {
      assert Claims(st, Pending, x);
    }
    if x in st.live {
      assert Claims(st, InodeOf(x), x);
    }
    if i, b :| LiveBlock(st, i, b, x) {
      assert Claims(st, BlockOf(i, b), x);
    }
    if u :| 0 <= u < |st.pcs| && InHand(st.pcs[u], x) {
      HandClaims(st, u, x);
    }
    if o :| Claims(st, o, x) {
      ClaimIsUse(st, o, x);
    }
  }

  lemma HandClaims(st: State, u: nat, x: int)
    requires u < |st.pcs| && InHand(st.pcs[u], x)
    ensures exists o :: Claims(st, o, x)
  {
    var pc := st.pcs[u];
    if (pc.Creating? || pc.CreateTook? || pc.CreateBack?) && pc.s == x {
      assert New(st.pcs[u], x);
      assert Claims(st, InodeOf(x), x);
    } else if (pc.CreateTook? || pc.GrowTook?) && pc.x == x {
      assert Claims(st, Hand(u), x);
    } else {
      var b :| BlockLeft(pc, b, x);
      if pc.Dropping? {
        assert Claims(st, DyingBlock(u, b), x);
      } else {
        assert New(st.pcs[u], pc.s);
        assert Claims(st, BlockOf(pc.s, b), x);
      }
    }
  }

  lemma ClaimIsUse(st: State, o: Owner, x: int)
    requires Claims(st, o, x)
    ensures InUse(st, x)
  {
    match o
    case Pending =>
    case InodeOf(i) =>
      if i !in st.live {
        var u :| 0 <= u < |st.pcs| && New(st.pcs[u], i);
        assert InHand(st.pcs[u], x);
      }
    case BlockOf(i, b) =>
      if i in st.live && 0 <= i < |st.vol.view| && BlockIs(Data(st, i), b, x) {
        assert LiveBlock(st, i, b, x);
      } else {
        var u :| 0 <= u < |st.pcs| && New(st.pcs[u], i) && BlockLeft(st.pcs[u], b, x);
        assert InHand(st.pcs[u], x);
      }
    case DyingBlock(u, b) => assert InHand(st.pcs[u], x);
    case Hand(u) => assert InHand(st.pcs[u], x);
  }

  /** The blocks a step forgets: those by which the file closed for good had grown. */
  ghost function Forgets(st: State, t: nat, op: Op): set<int>
    requires t < |st.pcs|
  {
    if st.pcs[t].Idle? && op.Close? && op.i in st.open && st.open[op.i].count <= 1 && !st.open[op.i].removed
       && 0 <= op.i < |st.vol.view|
    then set b | 0 <= b < NUM_DIRECT && b < |st.open[op.i].data.direct| && Grown(st, op.i, b) :: st.open[op.i].data.direct[b]
    else {}
  }

  /** Block b is in the inode in memory only. */
  ghost predicate Grown(st: State, i: int, b: nat)
    requires i in st.open && 0 <= i < |st.vol.view|
  {
    0 <= Disk(st, i).length && 0 <= st.open[i].data.length && Blocks(Disk(st, i)) <= b < Blocks(st.open[i].data)
  }

  // ---------------------------------------------------------------- the inodes that count, before and after a step

  /** A step's effect on the inode of a file that stays: none, on its length within the last sector, one block more, or growth forgotten. */
  ghost predicate DataMoves(st: State, t: nat, op: Op, st': State, j: int)
    requires t < |st.pcs| && 0 <= j < |st.vol.view| && 0 <= j < |st'.vol.view|
  {
    var d, d' := Data(st, j), Data(st', j);
    || d' == d
    || (d'.direct == d.direct && WfInode(d') && WfInode(d) && Blocks(d') == Blocks(d))
    || (st.pcs[t].GrowTook? && st.pcs[t].i == j && st.pcs[t].x <= UINT16_MAX && WfInode(d) && Blocks(d) < NUM_DIRECT
        && d' == WithBlock(d, st.pcs[t].x))
    || (op == Close(j) && st.pcs[t].Idle? && j in st.open && st.open[j].count <= 1 && !st.open[j].removed && d' == Disk(st, j))
  }

  /** What a step writes lies in no live inode's own sector. */
  lemma InodeSectorKept(st: State, owner: Owners, mem: map<int, seq<byte>>, t: nat, op: Op, st': State, j: int)
    requires Inv(st, owner, mem) && Step(st, t, op, st') && j in st.live
    ensures |st'.vol.view| == |st.vol.view| && 0 <= j < |st.vol.view| && st'.vol.view[j] == st.vol.view[j]
  {
    assert FileOk(st, owner, j);
    if Accesses(st, t, op).Some? {
      AccessIsOwn(st, owner, mem, t, op, st');
    }
    NewIsNotLive(st, owner, mem, t);
    WritesWhereItAccesses(st, t, op, st', j);
  }

  lemma WritesWhereItAccesses(st: State, t: nat, op: Op, st': State, j: nat)
    requires Step(st, t, op, st') && j < |st.vol.view|
    ensures |st'.vol.view| == |st.vol.view|
    ensures st.pcs[t].Idle? || Accesses(st, t, op) != Some(j) ==> st'.vol.view[j] == st.vol.view[j]
  {
    hide EncodeInode, DecodeInode, Splice, Finds, NothingFound, ZeroSector, WithBlock, WfInode, ChunkSize, Min, Begins, Writes, Creates;
    if st.pcs[t].Idle? {
      BeginsWriteNothing(st, t, op, st');
    } else if Creates(st, t, op, st') {
      CreatesWhereItAccesses(st, t, op, st', j);
    } else if Writes(st, t, op, st') {
      StoresWhereItAccesses(st, t, op, st', j);
    }
  }

  lemma BeginsWriteNothing(st: State, t: nat, op: Op, st': State)
    requires t < |st.pcs| && Begins(st, t, op, st')
    ensures st'.vol.view == st.vol.view
  {
    hide EncodeInode, DecodeInode, Finds, RoundUp;
  }

  lemma CreatesWhereItAccesses(st: State, t: nat, op: Op, st': State, j: nat)
    requires t < |st.pcs| && Creates(st, t, op, st') && j < |st.vol.view|
    ensures |st'.vol.view| == |st.vol.view|
    ensures Accesses(st, t, op) != Some(j) ==> st'.vol.view[j] == st.vol.view[j]
  {
    hide EncodeInode, DecodeInode, Finds, NothingFound, ZeroSector, WithBlock;
  }

  lemma StoresWhereItAccesses(st: State, t: nat, op: Op, st': State, j: nat)
    requires t < |st.pcs| && Writes(st, t, op, st') && j < |st.vol.view|
    ensures |st'.vol.view| == |st.vol.view|
    ensures Accesses(st, t, op) != Some(j) ==> st'.vol.view[j] == st.vol.view[j]
  {
    hide EncodeInode, DecodeInode, Splice, Finds, NothingFound, ZeroSector, WithBlock, ChunkSize, Min;
  }

  lemma DataOfOpen(st: State, st': State, j: int)
    requires 0 <= j < |st.vol.view| && |st'.vol.view| == |st.vol.view| && st'.vol.view[j] == st.vol.view[j]
    requires j in st.open <==> j in st'.open
    requires j in st.open ==> st'.open[j].data == st.open[j].data
    ensures Data(st', j) == Data(st, j)
  {
    hide DecodeInode;
  }

  lemma RoundedSame(d: InodeData, goal: int)
    requires FileRuns.Shape(d) && d.length < goal <= DIRECT_BYTES
    ensures
      var d' := d.(length := RoundUp(d.length, SECTOR_SIZE));
      d'.direct == d.direct && WfInode(d') && Blocks(d') == Blocks(d)
  {
  }

  lemma CutSame(d: InodeData, goal: int)
    requires FileRuns.Shape(d) && LoopOk(d.length, goal) && goal > 0
    ensures
      var d' := d.(length := Min(d.length, goal));
      d'.direct == d.direct && WfInode(d') && Blocks(d') == Blocks(d)
  {
  }

  lemma BeginsData(st: State, owner: Owners, mem: map<int, seq<byte>>, t: nat, op: Op, st': State, j: int)
    requires Inv(st, owner, mem) && Step(st, t, op, st') && st.pcs[t].Idle? && j in st.live && j in st'.live
    requires 0 <= j < |st.vol.view| && |st'.vol.view| == |st.vol.view| && st'.vol.view[j] == st.vol.view[j]
    ensures DataMoves(st, t, op, st', j)
  {
    assert FileOk(st, owner, j);
    hide DecodeInode, EncodeInode, Finds, RoundUp, Shows;
    if op.BeginWrite? && op.i == j && st.open[j].data.length < op.offset + |op.data| {
      RoundedSame(st.open[j].data, op.offset + |op.data|);
    } else if op.Open? || op.Close? || op.Remove? {
    } else {
      DataOfOpen(st, st', j);
    }
  }

  lemma WritesData(st: State, owner: Owners, mem: map<int, seq<byte>>, t: nat, op: Op, st': State, j: int)
    requires Inv(st, owner, mem) && t < |st.pcs| && Writes(st, t, op, st') && j in st.live
    requires 0 <= j < |st.vol.view| && |st'.vol.view| == |st.vol.view| && st'.vol.view[j] == st.vol.view[j]
    ensures DataMoves(st, t, op, st', j)
  {
    assert PcOk(st, owner, mem, t) && FileOk(st, owner, j);
    hide DecodeInode, EncodeInode, Splice, Finds, NothingFound, Shows, ZeroSector;
    var i := Uses(st.pcs[t]).value;
    if i != j || st.pcs[t].Storing? || op.Take? {
      WritesMovesOnly(st, t, op, st');
      DataOfOpen(st, st', j);
    } else if st.pcs[t].Growing? {
      var goal := st.pcs[t].offset + |st.pcs[t].data|;
      CutSame(st.open[i].data, goal);
    } else if st.pcs[t].x > UINT16_MAX {
      DataOfOpen(st, st', j);
    }
  }

  lemma StepData(st: State, owner: Owners, mem: map<int, seq<byte>>, t: nat, op: Op, st': State, j: int)
    requires Inv(st, owner, mem) && Step(st, t, op, st') && j in st.live && j in st'.live
    ensures 0 <= j < |st.vol.view| == |st'.vol.view| && DataMoves(st, t, op, st', j)
  {
    InodeSectorKept(st, owner, mem, t, op, st', j);
    hide Inv, Begins, Creates, Writes, FileProtocol.Reads, Drops, DataMoves;
    if st.pcs[t].Idle? {
      BeginsData(st, owner, mem, t, op, st', j);
    } else if Writes(st, t, op, st') {
      WritesData(st, owner, mem, t, op, st', j);
    } else {
      WorkKeepsOpenData(st, t, op, st');
      DataOfOpen(st, st', j);
      SameMoves(st, t, op, st', j);
    }
  }

  lemma SameMoves(st: State, t: nat, op: Op, st': State, j: int)
    requires t < |st.pcs| && 0 <= j < |st.vol.view| && 0 <= j < |st'.vol.view| && Data(st', j) == Data(st, j)
    ensures DataMoves(st, t, op, st', j)
  {
  }

  lemma WorkKeepsOpenData(st: State, t: nat, op: Op, st': State)
    requires t < |st.pcs| && (Creates(st, t, op, st') || FileProtocol.Reads(st, t, op, st') || Drops(st, t, op, st'))
    ensures st'.open == st.open
  {
    hide EncodeInode, DecodeInode, Splice, Finds, NothingFound, ZeroSector, WithBlock, Blocks, WfInode, ChunkSize, Min;
  }

  // ---------------------------------------------------------------- what a step does to the sectors in use

  /** A live file keeps its blocks but for those forgotten, and gains none but the sector in the growing thread's hand. */
  lemma BlocksMove(st: State, owner: Owners, mem: map<int, seq<byte>>, t: nat, op: Op, st': State, j: int, b: nat, x: int)
    requires Inv(st, owner, mem) && Step(st, t, op, st') && j in st.live && j in st'.live
    ensures LiveBlock(st', j, b, x) ==> LiveBlock(st, j, b, x) || (st.pcs[t].GrowTook? && st.pcs[t].x == x)
    ensures LiveBlock(st, j, b, x) && x !in Forgets(st, t, op) ==> LiveBlock(st', j, b, x)
  {
    StepData(st, owner, mem, t, op, st', j);
    assert FileOk(st, owner, j);
    hide Inv, Step, DecodeInode;
    if op == Close(j) && st.pcs[t].Idle? && j in st.open && st.open[j].count <= 1 && !st.open[j].removed && LiveBlock(st, j, b, x) {
      if b >= Blocks(Disk(st, j)) {
        assert Grown(st, j, b);
      }
    }
  }

  /** The sector a step allocates. */
  function Gains(st: State, t: nat, op: Op): Option<int>
    requires t < |st.pcs|
  {
    if st.pcs[t].Idle? then (if op.AllocSector? then Some(op.s) else None)
    else if op.Take? then Some(op.x) else None
  }

  /** x is in use by what thread t works on or by a file at rest. */
  ghost predicate Near(st: State, t: nat, x: int)
    requires t < |st.pcs|
  {
    Placed(st, x) || InHand(st.pcs[t], x)
  }

  /** A step of thread t moves only what is near it. */
  lemma NearMoves(st: State, t: nat, st': State, x: int)
    requires t < |st.pcs| == |st'.pcs| && st'.pcs == st.pcs[t := st'.pcs[t]]
    ensures InUse(st, x) && (Near(st, t, x) ==> Near(st', t, x)) ==> InUse(st', x)
    ensures InUse(st', x) && !InUse(st, x) ==> Near(st', t, x) && !Near(st, t, x)
  {
    if u :| 0 <= u < |st.pcs| && u != t && InHand(st.pcs[u], x) {
      assert InHand(st'.pcs[u], x);
    }
    if u :| 0 <= u < |st'.pcs| && u != t && InHand(st'.pcs[u], x) {
      assert InHand(st.pcs[u], x);
    }
  }

  /** Where the file's blocks stay, so do its placed sectors, apart from what the step itself moves. */
  lemma PlacedMoves(st: State, owner: Owners, mem: map<int, seq<byte>>, t: nat, op: Op, st': State, x: int)
    requires Inv(st, owner, mem) && Step(st, t, op, st')
    ensures Placed(st, x) && x !in Forgets(st, t, op) ==>
              || Placed(st', x)
              || (x in st.pending && x !in st'.pending)
              || (x in st.live && x !in st'.live)
              || (exists j, b :: LiveBlock(st, j, b, x) && j !in st'.live)
    ensures Placed(st', x) ==>
              || Placed(st, x)
              || (st.pcs[t].GrowTook? && st.pcs[t].x == x)
              || (x in st'.pending && x !in st.pending)
              || (x in st'.live && x !in st.live)
              || (exists j, b :: LiveBlock(st', j, b, x) && j !in st.live)
  {
    hide Inv, Step, Forgets, Data, BlockIs;
    if j, b :| LiveBlock(st, j, b, x) && j in st.live && j in st'.live {
      BlocksMove(st, owner, mem, t, op, st', j, b, x);
    }
    if j, b :| LiveBlock(st', j, b, x) && j in st.live && j in st'.live {
      BlocksMove(st, owner, mem, t, op, st', j, b, x);
    }
  }

  // ---------------------------------------------------------------- step by step

  /** x keeps its use unless the step gives it back or forgets it, and only an allocation adds one. */
  ghost predicate Conserves(st: State, t: nat, op: Op, st': State, x: int)
    requires t < |st.pcs|
  {
    && t < |st'.pcs|
    && (Near(st, t, x) && GivesBack(st, t, op) != Some(x) && x !in Forgets(st, t, op) ==> Near(st', t, x))
    && (Near(st', t, x) ==> Near(st, t, x) || Gains(st, t, op) == Some(x))
    && (Gains(st, t, op) == Some(x) ==> Near(st', t, x))
  }

  lemma EmptyHasNoBlock(b: nat, x: int)
    ensures !BlockIs(EmptyInode(), b, x)
  {
    assert Blocks(EmptyInode()) == 0;
  }

  /** A closing file's blocks pass to the thread that drops them. */
  lemma DropsHold(st: State, owner: Owners, mem: map<int, seq<byte>>, t: nat, op: Op, st': State, x: int)
    requires Inv(st, owner, mem) && Step(st, t, op, st') && st.pcs[t].Idle? && op.Close? && st'.pcs[t].Dropping?
    ensures op.i in st.live && op.i in st.open && GivesBack(st, t, op) == Some(op.i) && Gains(st, t, op) == None
    ensures st'.pcs[t] == Dropping(st.open[op.i].data, 0) && Data(st, op.i) == st.open[op.i].data
    ensures forall b :: BlockLeft(st'.pcs[t], b, x) <==> LiveBlock(st, op.i, b, x)
    ensures st'.pending == st.pending && st'.live == st.live - {op.i}
  {
    assert FileOk(st, owner, op.i);
    hide DecodeInode;
  }

  lemma CloseConserves(st: State, owner: Owners, mem: map<int, seq<byte>>, t: nat, op: Op, st': State, x: int)
    requires Inv(st, owner, mem) && Step(st, t, op, st') && st.pcs[t].Idle? && op.Close? && t < |st'.pcs| && st'.pcs[t].Dropping?
    ensures Conserves(st, t, op, st', x)
  {
    PlacedMoves(st, owner, mem, t, op, st', x);
    DropsHold(st, owner, mem, t, op, st', x);
    hide Inv, Data, DecodeInode, Begins, BlockIs, Forgets, GivesBack, Gains;
  }

  lemma BeginCreateConserves(st: State, owner: Owners, mem: map<int, seq<byte>>, t: nat, op: Op, st': State, x: int)
    requires Inv(st, owner, mem) && Step(st, t, op, st') && st.pcs[t].Idle? && op.BeginCreate?
    ensures Conserves(st, t, op, st', x)
  {
    PlacedMoves(st, owner, mem, t, op, st', x);
    hide Inv, Data, DecodeInode, BlockIs, Forgets;
    forall b ensures !BlockLeft(st'.pcs[t], b, x) {
      EmptyHasNoBlock(b, x);
    }
  }

  lemma BeginsConserve(st: State, owner: Owners, mem: map<int, seq<byte>>, t: nat, op: Op, st': State, x: int)
    requires Inv(st, owner, mem) && Step(st, t, op, st') && st.pcs[t].Idle?
    ensures Conserves(st, t, op, st', x)
  {
    BeginsMovesOnly(st, t, op, st');
    if op.Close? && st'.pcs[t].Dropping? {
      CloseConserves(st, owner, mem, t, op, st', x);
    } else if op.BeginCreate? {
      BeginCreateConserves(st, owner, mem, t, op, st', x);
    } else {
      PlacedMoves(st, owner, mem, t, op, st', x);
      BeginsIdle(st, t, op, st', x);
      hide Inv, Data, DecodeInode, Begins, BlockIs, Forgets, InHand;
    }
  }

  /** Otherwise a beginning moves no live file and takes nothing into its hands. */
  lemma BeginsIdle(st: State, t: nat, op: Op, st': State, x: int)
    requires Step(st, t, op, st') && st.pcs[t].Idle? && !op.BeginCreate? && t < |st'.pcs| && !st'.pcs[t].Dropping?
    ensures !InHand(st.pcs[t], x) && !InHand(st'.pcs[t], x) && st'.live == st.live
    ensures st'.pending == if op.AllocSector? then st.pending + {op.s} else if op.FreeSector? then st.pending - {op.s} else st.pending
    ensures GivesBack(st, t, op) == if op.FreeSector? then Some(op.s) else None
  {
    hide EncodeInode, DecodeInode, RoundUp, Finds, BlockIs;
    assert forall b :: !BlockLeft(st'.pcs[t], b, x) && !BlockLeft(st.pcs[t], b, x);
  }

  lemma AppendedBlock(d: InodeData, y: uint16, b: nat, x: int)
    requires WfInode(d) && Blocks(d) < NUM_DIRECT
    ensures BlockIs(WithBlock(d, y), b, x) <==> BlockIs(d, b, x) || (b == Blocks(d) && x == y)
  {
    assert Blocks(WithBlock(d, y)) == Blocks(d) + 1;
  }

  lemma FinishedBlock(d: InodeData, length: int, b: nat, x: int)
    requires FileRuns.Shape(d) && LoopOk(d.length, length) && d.length >= length
    ensures BlockIs(d.(length := Max(0, length)), b, x) <==> BlockIs(d, b, x)
  {
    assert Blocks(d.(length := Max(0, length))) == Blocks(d);
  }

  lemma CreateEndConserves(st: State, owner: Owners, mem: map<int, seq<byte>>, t: nat, op: Op, st': State, x: int)
    requires Inv(st, owner, mem) && Step(st, t, op, st') && Creates(st, t, op, st')
    requires st.pcs[t].Creating? && op.Go? && st.pcs[t].d.length >= st.pcs[t].length
    ensures Conserves(st, t, op, st', x)
  {
    PlacedMoves(st, owner, mem, t, op, st', x);
    assert PcOk(st, owner, mem, t);
    var s, length, d := st.pcs[t].s, st.pcs[t].length, st.pcs[t].d;
    var e := d.(length := Max(0, length));
    DecodeEncode(e);
    assert s !in st.open && Data(st', s) == e;
    hide Inv, DecodeInode, EncodeInode, Shows, BlockIs;
    forall b: nat ensures LiveBlock(st', s, b, x) <==> BlockLeft(st.pcs[t], b, x) {
      FinishedBlock(d, length, b, x);
    }
  }

  lemma CreatesConserve(st: State, owner: Owners, mem: map<int, seq<byte>>, t: nat, op: Op, st': State, x: int)
    requires Inv(st, owner, mem) && Step(st, t, op, st') && Creates(st, t, op, st')
    ensures Conserves(st, t, op, st', x)
  {
    if st.pcs[t].Creating? && op.Go? && st.pcs[t].d.length >= st.pcs[t].length {
      CreateEndConserves(st, owner, mem, t, op, st', x);
    } else if st.pcs[t].CreateBack? {
      CreateBackConserves(st, owner, mem, t, op, st', x);
    } else {
      CreateMoves(st, owner, mem, t, op, st', x);
    }
  }

  lemma CreateMoves(st: State, owner: Owners, mem: map<int, seq<byte>>, t: nat, op: Op, st': State, x: int)
    requires Inv(st, owner, mem) && Step(st, t, op, st') && Creates(st, t, op, st')
    requires st.pcs[t].CreateTook? || (st.pcs[t].Creating? && !(op.Go? && st.pcs[t].d.length >= st.pcs[t].length))
    ensures Conserves(st, t, op, st', x)
  {
    PlacedMoves(st, owner, mem, t, op, st', x);
    hide Inv, Data, DecodeInode, EncodeInode, Finds, NothingFound, BlockIs, WithBlock;
    var d := st.pcs[t].d;
    if st.pcs[t].CreateTook? && st.pcs[t].x <= UINT16_MAX {
      forall b: nat ensures BlockIs(WithBlock(d, st.pcs[t].x), b, x) <==> BlockIs(d, b, x) || (b == Blocks(d) && x == st.pcs[t].x) {
        AppendedBlock(d, st.pcs[t].x, b, x);
      }
      assert x == st.pcs[t].x ==> BlockLeft(st'.pcs[t], Blocks(d), x);
    }
    assert forall b: nat :: BlockLeft(st.pcs[t], b, x) ==> BlockLeft(st'.pcs[t], b, x);
    assert forall b: nat :: BlockLeft(st'.pcs[t], b, x) ==> BlockLeft(st.pcs[t], b, x) || (st.pcs[t].CreateTook? && st.pcs[t].x == x);
  }

  lemma CreateBackConserves(st: State, owner: Owners, mem: map<int, seq<byte>>, t: nat, op: Op, st': State, x: int)
    requires Inv(st, owner, mem) && Step(st, t, op, st') && Creates(st, t, op, st') && st.pcs[t].CreateBack?
    ensures Conserves(st, t, op, st', x)
  {
    PlacedMoves(st, owner, mem, t, op, st', x);
    hide Inv, Data, DecodeInode, EncodeInode;
    forall b: nat | BlockLeft(st.pcs[t], b, x) && GivesBack(st, t, op) != Some(x) ensures BlockLeft(st'.pcs[t], b, x) {
    }
    assert forall b: nat :: BlockLeft(st'.pcs[t], b, x) ==> BlockLeft(st.pcs[t], b, x);
  }

  lemma DropsConserve(st: State, owner: Owners, mem: map<int, seq<byte>>, t: nat, op: Op, st': State, x: int)
    requires Inv(st, owner, mem) && Step(st, t, op, st') && Drops(st, t, op, st')
    ensures Conserves(st, t, op, st', x)
  {
    PlacedMoves(st, owner, mem, t, op, st', x);
    hide Inv, Data, DecodeInode, EncodeInode;
    forall b: nat | BlockLeft(st.pcs[t], b, x) && GivesBack(st, t, op) != Some(x) ensures BlockLeft(st'.pcs[t], b, x) {
    }
    assert forall b: nat :: BlockLeft(st'.pcs[t], b, x) ==> BlockLeft(st.pcs[t], b, x);
  }

  lemma ReadsConserve(st: State, owner: Owners, mem: map<int, seq<byte>>, t: nat, op: Op, st': State, x: int)
    requires Inv(st, owner, mem) && Step(st, t, op, st') && FileProtocol.Reads(st, t, op, st')
    ensures Conserves(st, t, op, st', x)
  {
    PlacedMoves(st, owner, mem, t, op, st', x);
    hide Inv, Data, DecodeInode, EncodeInode, LiveBlock, BlockIs, ChunkSize;
  }

  lemma WritesConserve(st: State, owner: Owners, mem: map<int, seq<byte>>, t: nat, op: Op, st': State, x: int)
    requires Inv(st, owner, mem) && Step(st, t, op, st') && Writes(st, t, op, st')
    ensures Conserves(st, t, op, st', x)
  {
    PlacedMoves(st, owner, mem, t, op, st', x);
    WriteHands(st, t, op, st', x);
    if st.pcs[t].GrowTook? && st.pcs[t].x <= UINT16_MAX {
      HandJoins(st, owner, mem, t, op, st');
    }
    hide Inv, Step, Writes, InHand, Data, LiveBlock, Forgets;
  }

  /** What a writing thread holds: the sector it has just taken. */
  lemma WriteHands(st: State, t: nat, op: Op, st': State, x: int)
    requires t < |st.pcs| && Writes(st, t, op, st')
    ensures !st.pcs[t].Idle? && |st'.pcs| == |st.pcs| && st'.pending == st.pending && st'.live == st.live
    ensures InHand(st.pcs[t], x) <==> st.pcs[t].GrowTook? && st.pcs[t].x == x
    ensures InHand(st'.pcs[t], x) <==> op.Take? && op.x == x
    ensures GivesBack(st, t, op) == if st.pcs[t].GrowTook? && st.pcs[t].x > UINT16_MAX then Some(st.pcs[t].x) else None
  {
    hide EncodeInode, DecodeInode, Splice, Finds, NothingFound, ZeroSector, WithBlock, Blocks, WfInode, ChunkSize, Min;
  }

  /** The sector in hand becomes the file's next block. */
  lemma HandJoins(st: State, owner: Owners, mem: map<int, seq<byte>>, t: nat, op: Op, st': State)
    requires Inv(st, owner, mem) && Step(st, t, op, st') && Writes(st, t, op, st') && st.pcs[t].GrowTook? && st.pcs[t].x <= UINT16_MAX
    ensures Placed(st', st.pcs[t].x)
  {
    assert PcOk(st, owner, mem, t);
    var i, x := st.pcs[t].i, st.pcs[t].x;
    assert FileOk(st, owner, i);
    var d := st.open[i].data;
    AppendedBlock(d, x, Blocks(d), x);
    hide Inv, DecodeInode, BlockIs, WithBlock;
    assert LiveBlock(st', i, Blocks(d), x);
  }

  lemma StepConserves(st: State, owner: Owners, mem: map<int, seq<byte>>, t: nat, op: Op, st': State, x: int)
    requires Inv(st, owner, mem) && Step(st, t, op, st')
    ensures Conserves(st, t, op, st', x)
  {
    hide Inv, Conserves, Begins, Creates, Writes, FileProtocol.Reads, Drops;
    if st.pcs[t].Idle? {
      BeginsConserve(st, owner, mem, t, op, st', x);
    } else if Creates(st, t, op, st') {
      CreatesConserve(st, owner, mem, t, op, st', x);
    } else if Writes(st, t, op, st') {
      WritesConserve(st, owner, mem, t, op, st', x);
    } else if FileProtocol.Reads(st, t, op, st') {
      ReadsConserve(st, owner, mem, t, op, st', x);
    } else {
      DropsConserve(st, owner, mem, t, op, st', x);
    }
  }

  lemma StepMovesOneThread(st: State, t: nat, op: Op, st': State)
    requires Step(st, t, op, st')
    ensures t < |st.pcs| == |st'.pcs| && st'.pcs == st.pcs[t := st'.pcs[t]]
  {
    hide Begins, Creates, Writes, FileProtocol.Reads, Drops;
    if st.pcs[t].Idle? {
      BeginsMovesOnly(st, t, op, st');
    } else {
      WorkMovesOnly(st, t, op, st');
    }
  }

  /** A step changes the bitmap for the sector it gives back and the one it allocates, which was unused. */
  ghost predicate Flips(st: State, t: nat, op: Op, st': State, x: int)
    requires t < |st.pcs|
  {
    && |st'.vol.used| == |st.vol.used|
    && (Gains(st, t, op) == Some(x) ==> 0 <= x < |st.vol.used| && !st.vol.used[x])
    && (0 <= x < |st.vol.used| ==>
          (st'.vol.used[x] <==> (st.vol.used[x] && GivesBack(st, t, op) != Some(x)) || Gains(st, t, op) == Some(x)))
  }

  lemma BeginsMark(st: State, t: nat, op: Op, st': State, x: int)
    requires t < |st.pcs| && st.pcs[t].Idle? && Begins(st, t, op, st')
    ensures Flips(st, t, op, st', x)
  {
    hide EncodeInode, DecodeInode, RoundUp;
  }

  lemma CreatesMark(st: State, t: nat, op: Op, st': State, x: int)
    requires t < |st.pcs| && Creates(st, t, op, st')
    ensures Flips(st, t, op, st', x)
  {
    hide EncodeInode, DecodeInode, NothingFound, WithBlock, ZeroSector;
  }

  lemma WritesMark(st: State, t: nat, op: Op, st': State, x: int)
    requires t < |st.pcs| && Writes(st, t, op, st')
    ensures Flips(st, t, op, st', x)
  {
    hide EncodeInode, DecodeInode, NothingFound, WithBlock, ZeroSector, Splice, ChunkSize, Min;
  }

  lemma OthersMark(st: State, t: nat, op: Op, st': State, x: int)
    requires t < |st.pcs| && (FileProtocol.Reads(st, t, op, st') || Drops(st, t, op, st'))
    ensures Flips(st, t, op, st', x)
  {
    hide EncodeInode, DecodeInode, ChunkSize;
  }

  lemma StepMarks(st: State, t: nat, op: Op, st': State, x: int)
    requires Step(st, t, op, st')
    ensures Flips(st, t, op, st', x)
  {
    hide Begins, Creates, Writes, FileProtocol.Reads, Drops, Flips;
    if st.pcs[t].Idle? {
      BeginsMark(st, t, op, st', x);
    } else if Creates(st, t, op, st') {
      CreatesMark(st, t, op, st', x);
    } else if Writes(st, t, op, st') {
      WritesMark(st, t, op, st', x);
    } else {
      OthersMark(st, t, op, st', x);
    }
  }

  lemma InUseIsMarked(st: State, owner: Owners, mem: map<int, seq<byte>>, x: int)
    requires Inv(st, owner, mem) && InUse(st, x)
    ensures x in owner && 0 <= x < |st.vol.used| && st.vol.used[x] && Claims(st, owner[x], x)
  {
    InUseIff(st, x);
    var o :| Claims(st, o, x);
    ClaimsAreOwned(st, owner, mem, o, x);
  }

  /** What a step gives back was in use. */
  lemma GivenBackWasInUse(st: State, t: nat, op: Op, st': State)
    requires Step(st, t, op, st') && st.open.Keys <= st.live
    ensures
      var x := GivesBack(st, t, op);
      x.Some? ==> InUse(st, x.value)
  {
    hide EncodeInode, DecodeInode, Splice;
    match st.pcs[t]
    case CreateBack(_, d, b) =>
      if b < Blocks(d) {
        assert BlockLeft(st.pcs[t], b, d.direct[b]);
      }
    case Dropping(d, b) =>
      if b < Blocks(d) {
        assert BlockLeft(st.pcs[t], b, d.direct[b]);
      }
    case CreateTook(_, _, _, x) => assert InHand(st.pcs[t], x);
    case GrowTook(_, _, _, x) => assert InHand(st.pcs[t], x);
    case _ =>
  }

  /** A forgotten block was in use, and is not any more. */
  lemma ForgottenIsGone(st: State, owner: Owners, mem: map<int, seq<byte>>, t: nat, op: Op, st': State, x: int)
    requires Inv(st, owner, mem) && Step(st, t, op, st') && x in Forgets(st, t, op)
    ensures InUse(st, x) && !InUse(st', x) && GivesBack(st, t, op) == None && Gains(st, t, op) == None
  {
    var i := op.i;
    assert FileOk(st, owner, i);
    hide DecodeInode, EncodeInode, Shows;
    var b: nat :| b < NUM_DIRECT && b < |st.open[i].data.direct| && Grown(st, i, b) && x == st.open[i].data.direct[b];
    assert LiveBlock(st, i, b, x);
    ForgetKeeps(st, owner, mem, t, op, st');
    NoNewThread(st', owner, Recorded(mem, Shown(st, t, op)), i);
    assert Data(st', i) == Disk(st, i);
    if InUse(st', x) {
      InUseIsMarked(st', owner, Recorded(mem, Shown(st, t, op)), x);
      assert false;
    }
  }

  lemma NoNewThread(st: State, owner: Owners, mem: map<int, seq<byte>>, i: int)
    requires Inv(st, owner, mem) && i in st.live
    ensures forall u :: 0 <= u < |st.pcs| ==> !New(st.pcs[u], i)
  {
    forall u | 0 <= u < |st.pcs| ensures !New(st.pcs[u], i) {
      assert PcOk(st, owner, mem, u);
    }
  }

  // ---------------------------------------------------------------- whole runs

  /** The blocks forgotten in the first n steps. */
  ghost function Forgotten(states: seq<State>, who: seq<nat>, ops: seq<Op>, n: nat): set<int>
    requires Run(states, who, ops) && n <= |ops|
  {
    if n == 0 then {}
    else
      assert Step(states[n - 1], who[n - 1], ops[n - 1], states[n]);
      Forgotten(states, who, ops, n - 1) + Forgets(states[n - 1], who[n - 1], ops[n - 1])
  }

  /** A sector is marked exactly if it is in use or lost, and never both. */
  ghost predicate Accounted(st: State, lost: set<int>, x: int) {
    if 0 <= x < |st.vol.used| then (st.vol.used[x] <==> InUse(st, x) || x in lost) && !(InUse(st, x) && x in lost)
    else !InUse(st, x) && x !in lost
  }

  lemma StepAccounts(st: State, owner: Owners, mem: map<int, seq<byte>>, t: nat, op: Op, st': State, owner': Owners,
                     mem': map<int, seq<byte>>, lost: set<int>, x: int)
    requires Inv(st, owner, mem) && Step(st, t, op, st') && Inv(st', owner', mem') && Accounted(st, lost, x)
    ensures Accounted(st', lost + Forgets(st, t, op), x)
  {
    assert st.open.Keys <= st.live;
    StepConserves(st, owner, mem, t, op, st', x);
    StepMovesOneThread(st, t, op, st');
    NearMoves(st, t, st', x);
    GivenBackWasInUse(st, t, op, st');
    if x in Forgets(st, t, op) {
      ForgottenIsGone(st, owner, mem, t, op, st', x);
    }
    StepMarks(st, t, op, st', x);
    if InUse(st', x) {
      InUseIsMarked(st', owner', mem', x);
    }
    hide Inv, Step, InUse, Near, Forgets, GivesBack, Gains;
  }

  /** At first everything marked is pending. */
  lemma StartAccounts(st: State, x: int)
    requires Init(st)
    ensures Accounted(st, {}, x)
  {
    assert forall u, b :: 0 <= u < |st.pcs| ==> !BlockLeft(st.pcs[u], b, x);
  }

  lemma {:induction false} RunsAccount(states: seq<State>, who: seq<nat>, ops: seq<Op>, n: nat, x: int)
    requires Run(states, who, ops) && n < |states|
    ensures Accounted(states[n], Forgotten(states, who, ops, n), x)
    decreases n
  {
    if n == 0 {
      StartAccounts(states[0], x);
    } else {
      hide Inv, Step, Accounted, Replay, Run, Forgets;
      StepOfRun(states, who, ops, n - 1);
      var owner := RunsKeepInv(states, who, ops, n - 1);
      var owner' := RunsKeepInv(states, who, ops, n);
      RunsAccount(states, who, ops, n - 1, x);
      StepAccounts(states[n - 1], owner, Replay(states, who, ops, n - 1), who[n - 1], ops[n - 1], states[n], owner',
                   Replay(states, who, ops, n), Forgotten(states, who, ops, n - 1), x);
    }
  }

  /**
   Over every interleaving: each marked sector has exactly one role, or is a block that some last close forgot,
   and those stay marked without a role for good.
   */
  lemma SectorsAreConserved(states: seq<State>, who: seq<nat>, ops: seq<Op>, n: nat, x: nat)
    requires Run(states, who, ops) && n < |states| && x < |states[n].vol.used|
    ensures states[n].vol.used[x] <==> (exists o :: Claims(states[n], o, x)) || x in Forgotten(states, who, ops, n)
    ensures x in Forgotten(states, who, ops, n) ==> !exists o :: Claims(states[n], o, x)
  {
    RunsAccount(states, who, ops, n, x);
    InUseIff(states[n], x);
    hide Run, InUse, Claims, Forgotten;
  }

  /** So no sector is lost exactly as long as no last close has forgotten growth by a sector or more. */
  lemma NoneLostIff(states: seq<State>, who: seq<nat>, ops: seq<Op>, n: nat)
    requires Run(states, who, ops) && n < |states|
    ensures
      (forall x: nat :: x < |states[n].vol.used| && states[n].vol.used[x] ==> exists o :: Claims(states[n], o, x))
      <==> Forgotten(states, who, ops, n) == {}
  {
    hide Claims, Forgotten;
    if Forgotten(states, who, ops, n) == {} {
      forall x: nat | x < |states[n].vol.used| && states[n].vol.used[x] ensures exists o :: Claims(states[n], o, x) {
        SectorsAreConserved(states, who, ops, n, x);
      }
    }
    if forall x: nat :: x < |states[n].vol.used| && states[n].vol.used[x] ==> exists o :: Claims(states[n], o, x) {
      forall x: int ensures x !in Forgotten(states, who, ops, n) {
        RunsAccount(states, who, ops, n, x);
        if 0 <= x < |states[n].vol.used| {
          SectorsAreConserved(states, who, ops, n, x);
        }
      }
    }
  }
}
