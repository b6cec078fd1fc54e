/**
 What holds over every interleaving of module FileProtocol: each sector in use has one role, releases meet
 their assertion, no two threads access one sector, and each file's bytes are those its own completed writes
 left.
 */
module FileInterleavings {
  import opened Machine
  import opened FreeSectors
  import opened InodeMap
  import opened InodeCodec
  import opened FileContent
  import opened FileProtocol
  import opened FileSteps

  /** Only the reserved sectors and the root directory's inode sector are taken, and no thread is at work. */
  ghost predicate Init(st: State) {
    && WfVolume(st.vol) && ROOT_DIR_SECTOR < |st.vol.used|
    && (forall s :: s in st.reserved ==> 0 <= s < |st.vol.used|)
    && (forall s :: 0 <= s < |st.vol.used| ==> (st.vol.used[s] <==> s in st.reserved || s == ROOT_DIR_SECTOR))
    && st.pending == st.reserved + {ROOT_DIR_SECTOR} && st.live == {} && st.open == map[]
    && (forall t :: 0 <= t < |st.pcs| ==> st.pcs[t] == Idle)
  }

  ghost predicate Run(states: seq<State>, who: seq<nat>, ops: seq<Op>) {
    && |states| == |ops| + 1 == |who| + 1 && Init(states[0])
    && forall k :: 0 <= k < |ops| ==> Step(states[k], who[k], ops[k], states[k + 1])
  }

  /** The files' contents by the operations completed among the first n steps. */
  ghost function Replay(states: seq<State>, who: seq<nat>, ops: seq<Op>, n: nat): map<int, seq<byte>>
    requires Run(states, who, ops) && n <= |ops|
  {
    if n == 0 then map[]
    else
      assert Step(states[n - 1], who[n - 1], ops[n - 1], states[n]);
      Recorded(Replay(states, who, ops, n - 1), Shown(states[n - 1], who[n - 1], ops[n - 1]))
  }

  lemma {:induction false} RunsKeepInv(states: seq<State>, who: seq<nat>, ops: seq<Op>, n: nat) returns (owner: Owners)
    requires Run(states, who, ops) && n < |states|
    ensures Inv(states[n], owner, Replay(states, who, ops, n))
    decreases n
  {
    if n == 0 {
      owner := map s | s in states[0].pending :: Pending;
    } else {
      owner := RunsKeepInv(states, who, ops, n - 1);
      hide Inv, Step;
      assert Step(states[n - 1], who[n - 1], ops[n - 1], states[n]);
      owner := StepKeeps(states[n - 1], owner, Replay(states, who, ops, n - 1), who[n - 1], ops[n - 1], states[n]);
    }
  }

  /** Over every interleaving: a file nobody is working on reads as its completed operations say. */
  lemma ContentsAreRecorded(states: seq<State>, who: seq<nat>, ops: seq<Op>, n: nat, i: int)
    requires Run(states, who, ops) && n < |states| && i in Replay(states, who, ops, n) && !Busy(states[n], i)
    ensures i in states[n].live && 0 <= i < |states[n].vol.view|
    ensures
      var d := Data(states[n], i);
      Readable(d, states[n].vol.view) && Content(d, states[n].vol.view) == Replay(states, who, ops, n)[i]
  {
    var owner := RunsKeepInv(states, who, ops, n);
    ShowsContent(Data(states[n], i), states[n].vol.view, Replay(states, who, ops, n)[i]);
  }

  /** Over every interleaving: a read delivers the recorded bytes, as if it happened at once when it ended. */
  lemma ReadsSeeLastWrites(states: seq<State>, who: seq<nat>, ops: seq<Op>, n: nat)
    requires Run(states, who, ops) && n < |ops|
    ensures who[n] < |states[n].pcs| && Truthful(Replay(states, who, ops, n), Shown(states[n], who[n], ops[n]))
  {
    var owner := RunsKeepInv(states, who, ops, n);
    hide Inv, Step;
    assert Step(states[n], who[n], ops[n], states[n + 1]);
    owner := StepKeeps(states[n], owner, Replay(states, who, ops, n), who[n], ops[n], states[n + 1]);
  }

  // ---------------------------------------------------------------- what it means for sectors

  /** In state st sector x has the role o. */
  ghost predicate Claims(st: State, o: Owner, x: int) {
    match o
    case Pending => x in st.pending
    case InodeOf(i) => x == i && (i in st.live || exists t :: 0 <= t < |st.pcs| && New(st.pcs[t], i))
    case BlockOf(i, b) =>
      || (i in st.live && 0 <= i < |st.vol.view| && BlockIs(Data(st, i), b, x))
      || (exists t :: 0 <= t < |st.pcs| && New(st.pcs[t], i) && BlockLeft(st.pcs[t], b, x))
    case DyingBlock(t, b) => t < |st.pcs| && st.pcs[t].Dropping? && BlockLeft(st.pcs[t], b, x)
    case Hand(t) => t < |st.pcs| && (st.pcs[t].CreateTook? || st.pcs[t].GrowTook?) && st.pcs[t].x == x
  }

  ghost predicate New(pc: Pc, i: int) {
    (pc.Creating? || pc.CreateTook? || pc.CreateBack?) && pc.s == i
  }

  ghost predicate BlockIs(d: InodeData, b: nat, x: int) {
    WfInode(d) && b < Blocks(d) && b < NUM_DIRECT && d.direct[b] == x
  }

  /** Block b of the inode a thread is making or dropping, unless given back already. */
  ghost predicate BlockLeft(pc: Pc, b: nat, x: int) {
    && (pc.Creating? || pc.CreateTook? || pc.CreateBack? || pc.Dropping?)
    && BlockIs(pc.d, b, x) && (pc.CreateBack? || pc.Dropping? ==> pc.b <= b)
  }

  lemma ClaimsAreOwned(st: State, owner: Owners, mem: map<int, seq<byte>>, o: Owner, x: int)
    requires Inv(st, owner, mem) && Claims(st, o, x)
    ensures x in owner && owner[x] == o
  {
    hide DecodeInode, Shows;
    match o
    case Pending =>
    case InodeOf(i) =>
      if i in st.live {
        assert FileOk(st, owner, i);
      } else {
        var t :| 0 <= t < |st.pcs| && New(st.pcs[t], i);
        assert PcOk(st, owner, mem, t);
      }
    case BlockOf(i, b) =>
      if i in st.live && 0 <= i < |st.vol.view| && BlockIs(Data(st, i), b, x) {
        assert FileOk(st, owner, i);
      } else {
        var t :| 0 <= t < |st.pcs| && New(st.pcs[t], i) && BlockLeft(st.pcs[t], b, x);
        assert PcOk(st, owner, mem, t);
      }
    case DyingBlock(t, b) => assert PcOk(st, owner, mem, t);
    case Hand(t) => assert PcOk(st, owner, mem, t);
  }

  /**
   Over every interleaving: each sector with a role, as an inode, a block, a sector just allocated or one
   still to be given back, is marked and has no other role.
   */
  lemma OneRoleEach(states: seq<State>, who: seq<nat>, ops: seq<Op>, n: nat, o: Owner, x: int)
    requires Run(states, who, ops) && n < |states| && Claims(states[n], o, x)
    ensures 0 <= x < |states[n].vol.used| && states[n].vol.used[x]
    ensures forall o' :: Claims(states[n], o', x) ==> o' == o
  {
    var owner := RunsKeepInv(states, who, ops, n);
    var mem := Replay(states, who, ops, n);
    ClaimsAreOwned(states[n], owner, mem, o, x);
    forall o' | Claims(states[n], o', x) ensures o' == o {
      ClaimsAreOwned(states[n], owner, mem, o', x);
    }
  }

  /** The sector that a step gives back. */
  function GivesBack(st: State, t: nat, op: Op): Option<int>
    requires t < |st.pcs|
  {
    match st.pcs[t]
    case Idle =>
      if op.FreeSector? then Some(op.s)
      else if op.Close? && op.i in st.open && st.open[op.i].count <= 1 && st.open[op.i].removed then Some(op.i)
      else None
    case CreateTook(_, _, _, x) => if x > UINT16_MAX then Some(x) else None
    case GrowTook(_, _, _, x) => if x > UINT16_MAX then Some(x) else None
    case CreateBack(_, d, b) => if 0 <= d.length && b < Blocks(d) && b < |d.direct| then Some(d.direct[b]) else None
    case Dropping(d, b) => if 0 <= d.length && b < Blocks(d) && b < |d.direct| then Some(d.direct[b]) else None
    case _ => None
  }

  /** Over every interleaving the assertion in free_map_release holds. */
  lemma ReleasesAreMarked(states: seq<State>, who: seq<nat>, ops: seq<Op>, n: nat)
    requires Run(states, who, ops) && n < |ops|
    ensures who[n] < |states[n].pcs|
    ensures
      var x := GivesBack(states[n], who[n], ops[n]);
      x.Some? ==> 0 <= x.value < |states[n].vol.used| && states[n].vol.used[x.value]
  {
    var owner := RunsKeepInv(states, who, ops, n);
    assert Step(states[n], who[n], ops[n], states[n + 1]);
    GivesOwn(states[n], owner, Replay(states, who, ops, n), who[n], ops[n], states[n + 1]);
  }

  lemma GivesOwn(st: State, owner: Owners, mem: map<int, seq<byte>>, t: nat, op: Op, st': State)
    requires Inv(st, owner, mem) && Step(st, t, op, st')
    ensures
      var x := GivesBack(st, t, op);
      x.Some? ==> x.value in owner
  {
    hide DecodeInode, EncodeInode, Shows, Splice;
    assert PcOk(st, owner, mem, t);
    if st.pcs[t].Idle? && op.Close? {
      assert FileOk(st, owner, op.i);
    }
  }

  /** The sector that a step reads or writes through the cache. */
  function Accesses(st: State, t: nat, op: Op): Option<int>
    requires t < |st.pcs|
  {
    match st.pcs[t]
    case Idle => if op.Open? && op.i !in st.open then Some(op.i) else None
    case Creating(s, length, d) => if op.Go? && d.length >= length then Some(s) else None
    case CreateTook(_, _, _, x) => if x <= UINT16_MAX then Some(x) else None
    case GrowTook(_, _, _, x) => if x <= UINT16_MAX then Some(x) else None
    case Storing(i, offset, data, w) =>
      if i in st.open && w < |data| && offset + w < st.open[i].data.length then BlockAt(st.open[i].data, offset + w) else None
    case Reading(i, offset, size, bytes) =>
      if i in st.open && |bytes| < size && offset + |bytes| < st.open[i].data.length
      then BlockAt(st.open[i].data, offset + |bytes|) else None
    case _ => None
  }

  function BlockAt(d: InodeData, pos: nat): Option<int> {
    if pos / SECTOR_SIZE < |d.direct| then Some(d.direct[pos / SECTOR_SIZE]) else None
  }

  /** The role of the sector accessed. */
  function AccessRole(st: State, t: nat, op: Op): Owner
    requires t < |st.pcs| && Accesses(st, t, op).Some?
  {
    match st.pcs[t]
    case Idle => InodeOf(op.i)
    case Creating(s, _, _) => InodeOf(s)
    case Storing(i, offset, _, w) => BlockOf(i, (offset + w) / SECTOR_SIZE)
    case Reading(i, offset, _, bytes) => BlockOf(i, (offset + |bytes|) / SECTOR_SIZE)
    case _ => Hand(t)
  }

  /** The sector accessed belongs to the thread's own work. */
  lemma AccessIsOwn(st: State, owner: Owners, mem: map<int, seq<byte>>, t: nat, op: Op, st': State)
    requires Inv(st, owner, mem) && Step(st, t, op, st') && Accesses(st, t, op).Some?
    ensures Accesses(st, t, op).value in owner && owner[Accesses(st, t, op).value] == AccessRole(st, t, op)
    ensures st.pcs[t].Idle? ==> op.i in st.live
  {
    hide DecodeInode, EncodeInode, Shows, Splice;
    assert PcOk(st, owner, mem, t);
    match st.pcs[t]
    case Idle => assert FileOk(st, owner, op.i);
    case Storing(i, offset, _, w) =>
      assert FileOk(st, owner, i);
      AccessIsBlock(st, owner, i, offset + w);
    case Reading(i, offset, _, bytes) =>
      assert FileOk(st, owner, i);
      AccessIsBlock(st, owner, i, offset + |bytes|);
    case _ =>
  }

  lemma AccessIsBlock(st: State, owner: Owners, i: int, pos: nat)
    requires i in st.open && i in st.live ==> FileOk(st, owner, i)
    requires i in st.open && i in st.live && pos < st.open[i].data.length
    ensures pos / SECTOR_SIZE < |st.open[i].data.direct|
    ensures st.open[i].data.direct[pos / SECTOR_SIZE] in owner
    ensures owner[st.open[i].data.direct[pos / SECTOR_SIZE]] == BlockOf(i, pos / SECTOR_SIZE)
  {
    hide DecodeInode;
    assert pos / SECTOR_SIZE < Blocks(st.open[i].data);
  }

  /**
   Over every interleaving no two threads are about to access the same sector, two opens of one inode
   apart: what the buffer cache asks of its callers.
   */
  lemma AccessesApart(states: seq<State>, who: seq<nat>, ops: seq<Op>, n: nat, t: nat, op: Op, a: State, u: nat, op': Op, b: State)
    requires Run(states, who, ops) && n < |states| && t != u
    requires Step(states[n], t, op, a) && Step(states[n], u, op', b)
    requires Accesses(states[n], t, op).Some? && Accesses(states[n], u, op').Some?
    requires !(states[n].pcs[t].Idle? && states[n].pcs[u].Idle?)
    ensures Accesses(states[n], t, op) != Accesses(states[n], u, op')
  {
    var st := states[n];
    var owner := RunsKeepInv(states, who, ops, n);
    hide Step, Accesses, AccessRole;
    AccessIsOwn(st, owner, Replay(states, who, ops, n), t, op, a);
    AccessIsOwn(st, owner, Replay(states, who, ops, n), u, op', b);
    NewIsNotLive(st, owner, Replay(states, who, ops, n), t);
    NewIsNotLive(st, owner, Replay(states, who, ops, n), u);
    RolesApart(st, t, op, u, op');
  }

  /** Two threads at work have different inodes in hand. */
  lemma RolesApart(st: State, t: nat, op: Op, u: nat, op': Op)
    requires Exclusive(st.pcs) && t < |st.pcs| && u < |st.pcs| && t != u
    requires Accesses(st, t, op).Some? && Accesses(st, u, op').Some? && !(st.pcs[t].Idle? && st.pcs[u].Idle?)
    requires st.pcs[t].Idle? ==> op.i in st.live
    requires st.pcs[u].Idle? ==> op'.i in st.live
    requires st.pcs[t].Creating? ==> st.pcs[t].s !in st.live
    requires st.pcs[u].Creating? ==> st.pcs[u].s !in st.live
    ensures AccessRole(st, t, op) != AccessRole(st, u, op')
  {
    var a, b := Uses(st.pcs[t]), Uses(st.pcs[u]);
    assert a == b ==> a == None;
  }

  lemma NewIsNotLive(st: State, owner: Owners, mem: map<int, seq<byte>>, t: nat)
    requires Inv(st, owner, mem) && t < |st.pcs|
    ensures st.pcs[t].Creating? ==> st.pcs[t].s !in st.live
  {
    assert PcOk(st, owner, mem, t);
  }
}
