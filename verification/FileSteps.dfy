/**
 The invariant of module FileProtocol and its proof, step by step: each marked sector in use has one owner,
 and each file shows the bytes recorded for it.
 */
module FileSteps {
  import opened Machine
  import opened FreeSectors
  import opened InodeMap
  import opened FileContent
  import opened InodeCodec
  import opened Inodes
  import FileRuns
  import opened FileProtocol

  /** Who a marked sector belongs to: a caller about to create an inode, an inode, a closing or an allocating thread. */
  datatype Owner =
    | Pending
    | InodeOf(i: int)
    | BlockOf(i: int, b: nat)
    | DyingBlock(t: nat, b: nat)
    | Hand(t: nat)

  type Owners = map<int, Owner>

  /** Byte p of contents c followed by zeros. */
  function At(c: seq<byte>, p: nat): byte { if p < |c| then c[p] else 0 }

  /** The file's sectors show c, followed by zeros up to the end of the last one. */
  ghost predicate Shows(d: InodeData, view: seq<Sector>, c: seq<byte>) {
    && WfInode(d) && Blocks(d) <= NUM_DIRECT
    && (forall b :: 0 <= b < Blocks(d) ==> d.direct[b] < |view|)
    && forall p: nat :: p < Blocks(d) * SECTOR_SIZE ==> view[d.direct[p / SECTOR_SIZE]][p % SECTOR_SIZE] == At(c, p)
  }

  /** So a file that shows as many bytes as it is long has these as its contents. */
  lemma ShowsContent(d: InodeData, view: seq<Sector>, c: seq<byte>)
    requires Shows(d, view, c) && |c| == d.length
    ensures Readable(d, view) && Content(d, view) == c && CleanTail(d, view)
  {
    assert forall b :: 0 <= b < Blocks(d) ==> Entry(d, view, b) == d.direct[b];
    forall p: nat | p < Blocks(d) * SECTOR_SIZE ensures ByteAt(d, view, p) == At(c, p) {
    }
  }

  lemma ShowsKept(d: InodeData, view: seq<Sector>, view': seq<Sector>, c: seq<byte>)
    requires Shows(d, view, c) && |view'| == |view|
    requires forall b :: 0 <= b < Blocks(d) ==> view'[d.direct[b]] == view[d.direct[b]]
    ensures Shows(d, view', c)
  {
    forall p: nat | p < Blocks(d) * SECTOR_SIZE ensures view'[d.direct[p / SECTOR_SIZE]][p % SECTOR_SIZE] == At(c, p) {
    }
  }

  // ---------------------------------------------------------------- the invariant

  /** Inode i's block map d, of the direct range, lies in sectors of its own. */
  ghost predicate Holds(owner: Owners, i: int, d: InodeData) {
    FileRuns.Shape(d) && forall b :: 0 <= b < Blocks(d) ==> d.direct[b] in owner && owner[d.direct[b]] == BlockOf(i, b)
  }

  ghost predicate FileOk(st: State, owner: Owners, i: int) {
    && 0 <= i < |st.vol.view| && i in owner && owner[i] == InodeOf(i)
    && Holds(owner, i, Data(st, i)) && Holds(owner, i, Disk(st, i)) && FileRuns.Extends(Disk(st, i), Data(st, i))
    && (i in st.open ==> st.open[i].count > 0)
  }

  /** A file nobody is working on has its recorded contents. */
  ghost predicate AtRest(st: State, mem: map<int, seq<byte>>, i: int) {
    && 0 <= i < |st.vol.view|
    && (i in mem ==> |mem[i]| == Data(st, i).length && Shows(Data(st, i), st.vol.view, mem[i]))
  }

  ghost predicate HandOk(owner: Owners, t: nat, x: nat) { x in owner && owner[x] == Hand(t) }

  ghost predicate NewOk(st: State, owner: Owners, s: int, d: InodeData) {
    && 0 <= s < |st.vol.view| && s !in st.live && s in owner && owner[s] == InodeOf(s)
    && Holds(owner, s, d) && Shows(d, st.vol.view, [])
  }

  /** The loop of extend_disk is at length n on its way to goal. */
  ghost predicate LoopOk(n: int, goal: int) {
    n % SECTOR_SIZE == 0 && goal <= DIRECT_BYTES && (n == 0 || n - SECTOR_SIZE < goal)
  }

  ghost predicate GrowOk(st: State, mem: map<int, seq<byte>>, i: int, goal: int) {
    && i in st.live && i in st.open && 0 <= i < |st.vol.view|
    && LoopOk(st.open[i].data.length, goal) && Disk(st, i).length < goal
    && (i in mem ==> |mem[i]| < goal && |mem[i]| <= st.open[i].data.length && Shows(st.open[i].data, st.vol.view, mem[i]))
  }

  ghost predicate StoreOk(st: State, mem: map<int, seq<byte>>, i: int, offset: nat, data: seq<byte>, w: nat) {
    && i in st.live && i in st.open && w <= |data|
    && var d := st.open[i].data;
       (w > 0 ==> offset + w <= d.length)
       && (i in mem ==> |mem[i]| <= d.length && Shows(d, st.vol.view, Written(mem[i], d.length, offset, data[..w])))
  }

  ghost predicate ReadOk(st: State, mem: map<int, seq<byte>>, i: int, offset: nat, size: nat, bytes: seq<byte>) {
    && i in st.live && i in st.open && |bytes| <= size && AtRest(st, mem, i)
    && (bytes != [] ==> offset + |bytes| <= st.open[i].data.length)
    && (i in mem && bytes != [] ==> bytes == mem[i][offset..offset + |bytes|])
  }

  ghost predicate BackOk(st: State, owner: Owners, s: int, d: InodeData, b: nat) {
    && 0 <= s < |st.vol.view| && s !in st.live && s in owner && owner[s] == InodeOf(s) && FileRuns.Shape(d)
    && forall c :: b <= c < Blocks(d) ==> d.direct[c] in owner && owner[d.direct[c]] == BlockOf(s, c)
  }

  ghost predicate DropOk(owner: Owners, t: nat, d: InodeData, b: nat) {
    FileRuns.Shape(d) && forall c :: b <= c < Blocks(d) ==> d.direct[c] in owner && owner[d.direct[c]] == DyingBlock(t, c)
  }

  ghost predicate PcOk(st: State, owner: Owners, mem: map<int, seq<byte>>, t: nat)
    requires t < |st.pcs|
  {
    match st.pcs[t]
    case Idle => true
    case Creating(s, length, d) => NewOk(st, owner, s, d) && LoopOk(d.length, length)
    case CreateTook(s, length, d, x) =>
      NewOk(st, owner, s, d) && LoopOk(d.length, length) && d.length < length && HandOk(owner, t, x)
    case CreateBack(s, d, b) => BackOk(st, owner, s, d, b)
    case Growing(i, offset, data) => GrowOk(st, mem, i, offset + |data|)
    case GrowTook(i, offset, data, x) =>
      GrowOk(st, mem, i, offset + |data|) && st.open[i].data.length < offset + |data| && HandOk(owner, t, x)
    case Storing(i, offset, data, w) => StoreOk(st, mem, i, offset, data, w)
    case Reading(i, offset, size, bytes) => ReadOk(st, mem, i, offset, size, bytes)
    case Dropping(d, b) => DropOk(owner, t, d, b)
  }

  /** No inode is in the hands of two threads. */
  ghost predicate Exclusive(pcs: seq<Pc>) {
    forall t, u :: 0 <= t < u < |pcs| && Uses(pcs[t]) == Uses(pcs[u]) ==> Uses(pcs[t]) == None
  }

  ghost predicate Marks(st: State, owner: Owners) {
    && WfVolume(st.vol)
    && (forall x :: x in owner ==> 0 <= x < |st.vol.used| && st.vol.used[x])
    && (forall s :: s in st.pending ==> s in owner && owner[s] == Pending)
    && st.reserved <= st.pending && st.open.Keys <= st.live
  }

  ghost predicate Inv(st: State, owner: Owners, mem: map<int, seq<byte>>) {
    && Marks(st, owner) && mem.Keys <= st.live && Exclusive(st.pcs)
    && (forall i :: i in st.live ==> FileOk(st, owner, i) && (!Busy(st, i) ==> AtRest(st, mem, i)))
    && (forall t :: 0 <= t < |st.pcs| ==> PcOk(st, owner, mem, t))
  }

  // ---------------------------------------------------------------- what a step leaves to the others

  /** A sector that a step of thread t on inode i may touch. */
  ghost predicate Own(o: Owner, t: nat, i: int) {
    match o
    case Pending => true
    case InodeOf(j) => j == i
    case BlockOf(j, _) => j == i
    case DyingBlock(u, _) => u == t
    case Hand(u) => u == t
  }

  ghost predicate SectorsKept(st: State, owner: Owners, st': State, owner': Owners, t: nat, i: int) {
    && |st'.vol.view| == |st.vol.view|
    && forall y :: y in owner && 0 <= y < |st.vol.view| && !Own(owner[y], t, i) ==>
         y in owner' && owner'[y] == owner[y] && st'.vol.view[y] == st.vol.view[y]
  }

  ghost predicate FilesKept(st: State, mem: map<int, seq<byte>>, st': State, mem': map<int, seq<byte>>, i: int) {
    forall j :: j != i ==>
      && (j in st'.live <==> j in st.live)
      && (j in st'.open <==> j in st.open) && (j in st.open ==> st'.open[j] == st.open[j])
      && (j in mem' <==> j in mem) && (j in mem ==> mem'[j] == mem[j])
  }

  ghost predicate ThreadsKept(st: State, st': State, t: nat, i: int) {
    && t < |st.pcs| == |st'.pcs|
    && (forall u :: 0 <= u < |st.pcs| && u != t ==> st'.pcs[u] == st.pcs[u] && Uses(st.pcs[u]) != Some(i))
    && (Uses(st.pcs[t]) == None || Uses(st.pcs[t]) == Some(i))
    && (Uses(st'.pcs[t]) == None || Uses(st'.pcs[t]) == Some(i))
  }

  lemma BusyKept(st: State, st': State, t: nat, i: int, j: int)
    requires ThreadsKept(st, st', t, i) && j != i
    ensures Busy(st', j) <==> Busy(st, j)
  {
    if u :| 0 <= u < |st.pcs| && Uses(st.pcs[u]) == Some(j) {
      assert Uses(st'.pcs[u]) == Some(j);
    }
    if u :| 0 <= u < |st'.pcs| && Uses(st'.pcs[u]) == Some(j) {
      assert Uses(st.pcs[u]) == Some(j);
    }
  }

  lemma OtherFile(st: State, owner: Owners, mem: map<int, seq<byte>>, st': State, owner': Owners, mem': map<int, seq<byte>>,
                  t: nat, i: int, j: int)
    requires Marks(st, owner) && FileOk(st, owner, j) && j != i
    requires SectorsKept(st, owner, st', owner', t, i) && FilesKept(st, mem, st', mem', i)
    ensures FileOk(st', owner', j) && Data(st', j) == Data(st, j) && Disk(st', j) == Disk(st, j)
    ensures forall b :: 0 <= b < Blocks(Data(st, j)) ==>
              st'.vol.view[Data(st, j).direct[b]] == st.vol.view[Data(st, j).direct[b]]
    ensures AtRest(st, mem, j) ==> AtRest(st', mem', j)
  {
    hide DecodeInode, EncodeInode;
    assert st'.vol.view[j] == st.vol.view[j];
    var d := Data(st, j);
    forall b | 0 <= b < Blocks(d) ensures st'.vol.view[d.direct[b]] == st.vol.view[d.direct[b]] {
      assert owner[d.direct[b]] == BlockOf(j, b);
    }
    if AtRest(st, mem, j) && j in mem {
      ShowsKept(d, st.vol.view, st'.vol.view, mem[j]);
    }
  }

  /** A new inode's sectors are untouched by others. */
  lemma OtherNew(st: State, owner: Owners, mem: map<int, seq<byte>>, st': State, owner': Owners, mem': map<int, seq<byte>>,
                 t: nat, i: int, s: int, d: InodeData)
    requires Marks(st, owner) && NewOk(st, owner, s, d) && s != i
    requires SectorsKept(st, owner, st', owner', t, i) && FilesKept(st, mem, st', mem', i)
    ensures NewOk(st', owner', s, d)
  {
    hide DecodeInode, EncodeInode;
    forall b | 0 <= b < Blocks(d) ensures st'.vol.view[d.direct[b]] == st.vol.view[d.direct[b]] {
      assert owner[d.direct[b]] == BlockOf(s, b);
    }
    ShowsKept(d, st.vol.view, st'.vol.view, []);
  }

  lemma OtherPc(st: State, owner: Owners, mem: map<int, seq<byte>>, st': State, owner': Owners, mem': map<int, seq<byte>>,
                t: nat, i: int, u: nat)
    requires Inv(st, owner, mem) && u < |st.pcs| && u != t
    requires SectorsKept(st, owner, st', owner', t, i) && FilesKept(st, mem, st', mem', i) && ThreadsKept(st, st', t, i)
    ensures PcOk(st', owner', mem', u)
  {
    hide DecodeInode, EncodeInode;
    assert PcOk(st, owner, mem, u) && Uses(st.pcs[u]) != Some(i);
    match st.pcs[u]
    case Idle =>
    case Creating(s, length, d) => OtherNew(st, owner, mem, st', owner', mem', t, i, s, d);
    case CreateTook(s, length, d, x) => OtherNew(st, owner, mem, st', owner', mem', t, i, s, d);
    case CreateBack(s, d, b) =>
    case Dropping(d, b) =>
    case _ => OtherOpen(st, owner, mem, st', owner', mem', t, i, u);
  }

  /** A thread at work on an open inode. */
  lemma OtherOpen(st: State, owner: Owners, mem: map<int, seq<byte>>, st': State, owner': Owners, mem': map<int, seq<byte>>,
                  t: nat, i: int, u: nat)
    requires Inv(st, owner, mem) && u < |st.pcs| && u != t
    requires st.pcs[u].Growing? || st.pcs[u].GrowTook? || st.pcs[u].Storing? || st.pcs[u].Reading?
    requires SectorsKept(st, owner, st', owner', t, i) && FilesKept(st, mem, st', mem', i) && ThreadsKept(st, st', t, i)
    ensures PcOk(st', owner', mem', u)
  {
    hide DecodeInode, EncodeInode;
    assert PcOk(st, owner, mem, u);
    var j := Uses(st.pcs[u]).value;
    assert j in st.live && FileOk(st, owner, j);
    OtherFile(st, owner, mem, st', owner', mem', t, i, j);
    if j in mem {
      forall c | Shows(st.open[j].data, st.vol.view, c) ensures Shows(st'.open[j].data, st'.vol.view, c) {
        ShowsKept(st.open[j].data, st.vol.view, st'.vol.view, c);
      }
    }
  }

  /** A step on inode i by thread t keeps the invariant if it does so for them. */
  lemma Finish(st: State, owner: Owners, mem: map<int, seq<byte>>, st': State, owner': Owners, mem': map<int, seq<byte>>, t: nat, i: int)
    requires Inv(st, owner, mem)
    requires SectorsKept(st, owner, st', owner', t, i) && FilesKept(st, mem, st', mem', i) && ThreadsKept(st, st', t, i)
    requires Marks(st', owner') && mem'.Keys <= st'.live
    requires i in st'.live ==> FileOk(st', owner', i) && (!Busy(st', i) ==> AtRest(st', mem', i))
    requires PcOk(st', owner', mem', t)
    ensures Inv(st', owner', mem')
  {
    hide PcOk, FileOk, AtRest, Busy, Marks, SectorsKept;
    forall j | j in st'.live ensures FileOk(st', owner', j) && (!Busy(st', j) ==> AtRest(st', mem', j)) {
      if j != i {
        assert j in st.live;
        OtherFile(st, owner, mem, st', owner', mem', t, i, j);
        BusyKept(st, st', t, i, j);
      }
    }
    forall u | 0 <= u < |st'.pcs| ensures PcOk(st', owner', mem', u) {
      if u != t {
        OtherPc(st, owner, mem, st', owner', mem', t, i, u);
      }
    }
  }

  // ---------------------------------------------------------------- every step

  /** An inode in a thread's hands has its sector. */
  lemma UsesOwned(st: State, owner: Owners, mem: map<int, seq<byte>>, u: nat, i: int)
    requires Inv(st, owner, mem) && u < |st.pcs| && Uses(st.pcs[u]) == Some(i)
    ensures i >= 0 && i in owner && owner[i] == InodeOf(i)
  {
    assert PcOk(st, owner, mem, u);
    if i in st.live {
      assert FileOk(st, owner, i);
    }
  }

  /** The others do not have an inode whose sector is not its own. */
  lemma NobodyUses(st: State, owner: Owners, mem: map<int, seq<byte>>, i: int)
    requires Inv(st, owner, mem) && (i in owner ==> owner[i] != InodeOf(i))
    ensures i !in st.live && forall u :: 0 <= u < |st.pcs| ==> Uses(st.pcs[u]) != Some(i)
  {
    assert i in st.live ==> FileOk(st, owner, i);
    forall u | 0 <= u < |st.pcs| ensures Uses(st.pcs[u]) != Some(i) {
      if Uses(st.pcs[u]) == Some(i) {
        UsesOwned(st, owner, mem, u, i);
      }
    }
  }

  lemma OnlyOne(st: State, owner: Owners, mem: map<int, seq<byte>>, t: nat, i: int)
    requires Inv(st, owner, mem) && t < |st.pcs| && Uses(st.pcs[t]) == Some(i)
    ensures forall u :: 0 <= u < |st.pcs| && u != t ==> Uses(st.pcs[u]) != Some(i)
  {
  }

  lemma PendingKeeps(st: State, owner: Owners, mem: map<int, seq<byte>>, t: nat, op: Op, st': State) returns (owner': Owners)
    requires Inv(st, owner, mem) && t < |st.pcs| && st.pcs[t].Idle? && Begins(st, t, op, st')
    requires op.AllocSector? || op.FreeSector?
    ensures Inv(st', owner', mem)
  {
    hide DecodeInode, EncodeInode;
    owner' := if op.AllocSector? then owner[op.s := Pending] else owner - {op.s};
    assert -1 !in owner;
    NobodyUses(st, owner, mem, -1);
    Finish(st, owner, mem, st', owner', mem, t, -1);
  }

  lemma BeginCreateKeeps(st: State, owner: Owners, mem: map<int, seq<byte>>, t: nat, op: Op, st': State) returns (owner': Owners)
    requires Inv(st, owner, mem) && t < |st.pcs| && st.pcs[t].Idle? && Begins(st, t, op, st') && op.BeginCreate?
    ensures Inv(st', owner', mem)
  {
    hide DecodeInode, EncodeInode;
    owner' := owner[op.s := InodeOf(op.s)];
    NobodyUses(st, owner, mem, op.s);
    assert Blocks(EmptyInode()) == 0;
    Finish(st, owner, mem, st', owner', mem, t, op.s);
  }

  lemma OpenKeeps(st: State, owner: Owners, mem: map<int, seq<byte>>, t: nat, op: Op, st': State)
    requires Inv(st, owner, mem) && t < |st.pcs| && st.pcs[t].Idle? && Begins(st, t, op, st')
    requires op.Open? || op.Remove? || (op.Close? && st.open[op.i].count > 1)
    ensures Inv(st', owner, mem)
  {
    hide DecodeInode, EncodeInode;
    var i := op.i;
    assert FileOk(st, owner, i) && AtRest(st, mem, i);
    assert Data(st', i) == Data(st, i);
    Finish(st, owner, mem, st', owner, mem, t, i);
  }

  /** The last close of a file that stays: it reads as its sector says from now on. */
  lemma ForgetKeeps(st: State, owner: Owners, mem: map<int, seq<byte>>, t: nat, op: Op, st': State)
    requires Inv(st, owner, mem) && t < |st.pcs| && st.pcs[t].Idle? && Begins(st, t, op, st')
    requires op.Close? && st.open[op.i].count <= 1 && !st.open[op.i].removed
    ensures Inv(st', owner, Recorded(mem, Shown(st, t, op)))
  {
    hide DecodeInode, EncodeInode;
    var i := op.i;
    var mem' := Recorded(mem, Shown(st, t, op));
    assert FileOk(st, owner, i) && AtRest(st, mem, i);
    var d, e := Disk(st, i), Data(st, i);
    if i in mem' {
      assert d.length == e.length && forall b :: 0 <= b < Blocks(d) ==> d.direct[b] == e.direct[b];
      forall p: nat | p < Blocks(d) * SECTOR_SIZE
        ensures st.vol.view[d.direct[p / SECTOR_SIZE]][p % SECTOR_SIZE] == At(mem[i], p)
      {
        assert st.vol.view[e.direct[p / SECTOR_SIZE]][p % SECTOR_SIZE] == At(mem[i], p);
      }
    }
    Finish(st, owner, mem, st', owner, mem', t, i);
  }

  /** Who owns what once inode i's last close has begun to give its sectors back. */
  function Dying(owner: Owners, t: nat, i: int): Owners {
    map y | y in owner && owner[y] != InodeOf(i) ::
      if owner[y].BlockOf? && owner[y].i == i then DyingBlock(t, owner[y].b) else owner[y]
  }

  lemma DropBegins(st: State, owner: Owners, mem: map<int, seq<byte>>, t: nat, op: Op, st': State) returns (owner': Owners)
    requires Inv(st, owner, mem) && t < |st.pcs| && st.pcs[t].Idle? && Begins(st, t, op, st')
    requires op.Close? && st.open[op.i].count <= 1 && st.open[op.i].removed
    ensures Inv(st', owner', Recorded(mem, Shown(st, t, op)))
  {
    hide DecodeInode, EncodeInode;
    var i := op.i;
    owner' := Dying(owner, t, i);
    assert FileOk(st, owner, i);
    assert PcOk(st', owner', mem - {i}, t);
    Finish(st, owner, mem, st', owner', mem - {i}, t, i);
  }

  lemma ShowsSame(d: InodeData, view: seq<Sector>, c: seq<byte>, d': InodeData, c': seq<byte>)
    requires Shows(d, view, c) && WfInode(d') && Blocks(d') == Blocks(d) && d'.direct == d.direct
    requires forall p: nat :: p < Blocks(d) * SECTOR_SIZE ==> At(c', p) == At(c, p)
    ensures Shows(d', view, c')
  {
    forall p: nat | p < Blocks(d') * SECTOR_SIZE ensures view[d'.direct[p / SECTOR_SIZE]][p % SECTOR_SIZE] == At(c', p) {
      assert At(c', p) == At(c, p);
    }
  }

  /** Nothing stored yet. */
  lemma StoreStarts(st: State, mem: map<int, seq<byte>>, i: int, offset: nat, data: seq<byte>)
    requires i in st.live && i in st.open && WfInode(st.open[i].data)
    requires i in mem ==> |mem[i]| <= st.open[i].data.length && Shows(st.open[i].data, st.vol.view, mem[i])
    ensures StoreOk(st, mem, i, offset, data, 0)
  {
    if i in mem {
      var d := st.open[i].data;
      assert data[..0] == [];
      ShowsSame(d, st.vol.view, mem[i], d, Written(mem[i], d.length, offset, data[..0]));
    }
  }

  lemma BeginWriteKeeps(st: State, owner: Owners, mem: map<int, seq<byte>>, t: nat, op: Op, st': State)
    requires Inv(st, owner, mem) && t < |st.pcs| && st.pcs[t].Idle? && Begins(st, t, op, st') && op.BeginWrite?
    ensures Inv(st', owner, mem)
  {
    hide DecodeInode, EncodeInode;
    var i := op.i;
    assert FileOk(st, owner, i) && AtRest(st, mem, i);
    var d := st.open[i].data;
    if d.length >= op.offset + |op.data| {
      StoreStarts(st', mem, i, op.offset, op.data);
    } else if i in mem {
      ShowsSame(d, st.vol.view, mem[i], st'.open[i].data, mem[i]);
    }
    assert Busy(st', i) by { assert Uses(st'.pcs[t]) == Some(i); }
    Finish(st, owner, mem, st', owner, mem, t, i);
  }

  lemma BeginReadKeeps(st: State, owner: Owners, mem: map<int, seq<byte>>, t: nat, op: Op, st': State)
    requires Inv(st, owner, mem) && t < |st.pcs| && st.pcs[t].Idle? && Begins(st, t, op, st') && op.BeginRead?
    ensures Inv(st', owner, mem)
  {
    hide DecodeInode, EncodeInode;
    assert FileOk(st, owner, op.i) && AtRest(st, mem, op.i);
    Finish(st, owner, mem, st', owner, mem, t, op.i);
  }

  /** A sector just marked is in the thread's hand. */
  lemma TakeKeeps(st: State, owner: Owners, mem: map<int, seq<byte>>, t: nat, op: Op, st': State) returns (owner': Owners)
    requires Inv(st, owner, mem) && t < |st.pcs| && op.Take? && (Creates(st, t, op, st') || Writes(st, t, op, st'))
    ensures Inv(st', owner', mem)
  {
    hide DecodeInode, EncodeInode;
    owner' := owner[op.x := Hand(t)];
    assert op.x !in owner;
    assert PcOk(st, owner, mem, t);
    var i := Uses(st.pcs[t]).value;
    OnlyOne(st, owner, mem, t, i);
    UsesOwned(st, owner, mem, t, i);
    assert i in st.live ==> FileOk(st, owner, i);
    assert Busy(st', i) by { assert Uses(st'.pcs[t]) == Some(i); }
    Finish(st, owner, mem, st', owner', mem, t, i);
  }

  /** A zeroed sector joins the block map. */
  lemma AppendShows(owner: Owners, i: int, d: InodeData, view: seq<Sector>, x: uint16, c: seq<byte>)
    requires Holds(owner, i, d) && Shows(d, view, c) && |c| <= Blocks(d) * SECTOR_SIZE
    requires Blocks(d) < NUM_DIRECT && x < |view| && (x in owner ==> owner[x].Hand?)
    ensures Shows(WithBlock(d, x), view[x := ZeroSector()], c)
    ensures Holds(owner[x := BlockOf(i, Blocks(d))], i, WithBlock(d, x))
  {
    var r, view' := WithBlock(d, x), view[x := ZeroSector()];
    assert Blocks(r) == Blocks(d) + 1;
    forall b | 0 <= b < Blocks(d) ensures d.direct[b] != x && r.direct[b] == d.direct[b] {
      assert owner[d.direct[b]] == BlockOf(i, b);
    }
    forall p: nat | p < Blocks(r) * SECTOR_SIZE ensures view'[r.direct[p / SECTOR_SIZE]][p % SECTOR_SIZE] == At(c, p) {
      if p < Blocks(d) * SECTOR_SIZE {
        assert view[d.direct[p / SECTOR_SIZE]][p % SECTOR_SIZE] == At(c, p);
      } else {
        assert p / SECTOR_SIZE == Blocks(d);
      }
    }
  }

  lemma CreateAppends(st: State, owner: Owners, mem: map<int, seq<byte>>, t: nat, op: Op, st': State) returns (owner': Owners)
    requires Inv(st, owner, mem) && t < |st.pcs| && st.pcs[t].CreateTook? && st.pcs[t].x <= UINT16_MAX
    requires Creates(st, t, op, st')
    ensures Inv(st', owner', mem)
  {
    hide DecodeInode, EncodeInode;
    assert PcOk(st, owner, mem, t);
    var s, d, x := st.pcs[t].s, st.pcs[t].d, st.pcs[t].x;
    owner' := owner[x := BlockOf(s, Blocks(d))];
    OnlyOne(st, owner, mem, t, s);
    AppendShows(owner, s, d, st.vol.view, x, []);
    Finish(st, owner, mem, st', owner', mem, t, s);
  }

  lemma GrowAppends(st: State, owner: Owners, mem: map<int, seq<byte>>, t: nat, op: Op, st': State) returns (owner': Owners)
    requires Inv(st, owner, mem) && t < |st.pcs| && st.pcs[t].GrowTook? && st.pcs[t].x <= UINT16_MAX
    requires Writes(st, t, op, st')
    ensures Inv(st', owner', mem)
  {
    hide DecodeInode, EncodeInode;
    assert PcOk(st, owner, mem, t);
    var i, x := st.pcs[t].i, st.pcs[t].x;
    var d := st.open[i].data;
    owner' := owner[x := BlockOf(i, Blocks(d))];
    OnlyOne(st, owner, mem, t, i);
    assert FileOk(st, owner, i);
    if i in mem {
      AppendShows(owner, i, d, st.vol.view, x, mem[i]);
    } else {
      AppendHolds(owner, i, d, x);
    }
    assert x != i;
    AppendFileOk(st, owner, i, d, x, st', owner');
    assert Busy(st', i) by { assert Uses(st'.pcs[t]) == Some(i); }
    assert SectorsKept(st, owner, st', owner', t, i);
    assert Marks(st', owner') && mem.Keys <= st'.live;
    assert PcOk(st', owner', mem, t);
    hide Shows, FileOk, AtRest, Inv, PcOk, Marks, Holds, SectorsKept;
    Finish(st, owner, mem, st', owner', mem, t, i);
  }

  lemma AppendHolds(owner: Owners, i: int, d: InodeData, x: uint16)
    requires Holds(owner, i, d) && Blocks(d) < NUM_DIRECT && (x in owner ==> owner[x].Hand?)
    ensures Holds(owner[x := BlockOf(i, Blocks(d))], i, WithBlock(d, x))
  {
    var r := WithBlock(d, x);
    assert Blocks(r) == Blocks(d) + 1;
    forall b | 0 <= b < Blocks(d) ensures d.direct[b] != x && r.direct[b] == d.direct[b] {
      assert owner[d.direct[b]] == BlockOf(i, b);
    }
  }

  lemma AppendFileOk(st: State, owner: Owners, i: int, d: InodeData, x: uint16, st': State, owner': Owners)
    requires FileOk(st, owner, i) && i in st.open && d == st.open[i].data && i in st'.open
    requires Blocks(d) < NUM_DIRECT && x != i && x in owner && owner[x].Hand? && owner' == owner[x := BlockOf(i, Blocks(d))]
    requires st'.open[i] == st.open[i].(data := WithBlock(d, x)) && Holds(owner', i, WithBlock(d, x))
    requires x < |st.vol.view| && st'.vol.view == st.vol.view[x := ZeroSector()]
    ensures FileOk(st', owner', i)
  {
    var e := Disk(st, i);
    assert Disk(st', i) == e;
    forall b | 0 <= b < Blocks(e) ensures e.direct[b] != x {
      assert owner[e.direct[b]] == BlockOf(i, b);
    }
  }

  /** A sector whose number does not fit 16 bits is given back. */
  lemma TooBigKeeps(st: State, owner: Owners, mem: map<int, seq<byte>>, t: nat, op: Op, st': State) returns (owner': Owners)
    requires Inv(st, owner, mem) && t < |st.pcs| && (Creates(st, t, op, st') || Writes(st, t, op, st'))
    requires (st.pcs[t].CreateTook? || st.pcs[t].GrowTook?) && st.pcs[t].x > UINT16_MAX
    ensures Inv(st', owner', mem)
  {
    hide DecodeInode, EncodeInode;
    assert PcOk(st, owner, mem, t);
    var i, x := Uses(st.pcs[t]).value, st.pcs[t].x;
    owner' := owner - {x};
    OnlyOne(st, owner, mem, t, i);
    UsesOwned(st, owner, mem, t, i);
    if st.pcs[t].GrowTook? {
      assert FileOk(st, owner, i);
      StoreStarts(st', mem, i, st.pcs[t].offset, st.pcs[t].data);
    }
    assert st.pcs[t].GrowTook? ==> Busy(st', i) by { assert st.pcs[t].GrowTook? ==> Uses(st'.pcs[t]) == Some(i); }
    Finish(st, owner, mem, st', owner', mem, t, i);
  }

  lemma CreateFailKeeps(st: State, owner: Owners, mem: map<int, seq<byte>>, t: nat, op: Op, st': State)
    requires Inv(st, owner, mem) && t < |st.pcs| && st.pcs[t].Creating? && op.Go? && Creates(st, t, op, st')
    requires st.pcs[t].d.length < st.pcs[t].length
    ensures Inv(st', owner, mem)
  {
    hide DecodeInode, EncodeInode;
    assert PcOk(st, owner, mem, t);
    OnlyOne(st, owner, mem, t, st.pcs[t].s);
    Finish(st, owner, mem, st', owner, mem, t, st.pcs[t].s);
  }

  lemma CreateBackKeeps(st: State, owner: Owners, mem: map<int, seq<byte>>, t: nat, op: Op, st': State) returns (owner': Owners)
    requires Inv(st, owner, mem) && t < |st.pcs| && st.pcs[t].CreateBack? && Creates(st, t, op, st')
    ensures Inv(st', owner', mem)
  {
    hide DecodeInode, EncodeInode;
    assert PcOk(st, owner, mem, t);
    var s, d, b := st.pcs[t].s, st.pcs[t].d, st.pcs[t].b;
    owner' := if b < Blocks(d) then owner - {d.direct[b] as int} else owner[s := Pending];
    OnlyOne(st, owner, mem, t, s);
    Finish(st, owner, mem, st', owner', mem, t, s);
  }

  lemma CreateEnds(st: State, owner: Owners, mem: map<int, seq<byte>>, t: nat, op: Op, st': State)
    requires Inv(st, owner, mem) && t < |st.pcs| && st.pcs[t].Creating? && op.Go? && Creates(st, t, op, st')
    requires st.pcs[t].d.length >= st.pcs[t].length
    ensures Inv(st', owner, Recorded(mem, Shown(st, t, op)))
  {
    assert PcOk(st, owner, mem, t);
    var s, n, d := st.pcs[t].s, Max(0, st.pcs[t].length), st.pcs[t].d;
    var e := d.(length := n);
    OnlyOne(st, owner, mem, t, s);
    DecodeEncode(e);
    hide EncodeInode, DecodeInode;
    assert Blocks(e) == Blocks(d);
    forall b | 0 <= b < Blocks(d) ensures st'.vol.view[d.direct[b]] == st.vol.view[d.direct[b]] {
      assert owner[d.direct[b]] == BlockOf(s, b);
    }
    ShowsKept(d, st.vol.view, st'.vol.view, []);
    ShowsSame(d, st'.vol.view, [], e, Zeros(n));
    assert s !in st.open;
    Finish(st, owner, mem, st', owner, mem[s := Zeros(n)], t, s);
  }

  lemma GrowEnds(st: State, owner: Owners, mem: map<int, seq<byte>>, t: nat, op: Op, st': State)
    requires Inv(st, owner, mem) && t < |st.pcs| && st.pcs[t].Growing? && op.Go? && Writes(st, t, op, st')
    ensures Inv(st', owner, mem)
  {
    hide DecodeInode, EncodeInode;
    assert PcOk(st, owner, mem, t);
    var i := st.pcs[t].i;
    var d, e := st.open[i].data, st'.open[i].data;
    OnlyOne(st, owner, mem, t, i);
    assert FileOk(st, owner, i);
    assert Blocks(e) == Blocks(d);
    if i in mem {
      ShowsSame(d, st.vol.view, mem[i], e, mem[i]);
    }
    StoreStarts(st', mem, i, st.pcs[t].offset, st.pcs[t].data);
    assert Busy(st', i) by { assert Uses(st'.pcs[t]) == Some(i); }
    Finish(st, owner, mem, st', owner, mem, t, i);
  }

  lemma DropKeeps(st: State, owner: Owners, mem: map<int, seq<byte>>, t: nat, op: Op, st': State) returns (owner': Owners)
    requires Inv(st, owner, mem) && t < |st.pcs| && st.pcs[t].Dropping? && Drops(st, t, op, st')
    ensures Inv(st', owner', mem)
  {
    hide DecodeInode, EncodeInode;
    assert PcOk(st, owner, mem, t);
    var d, b := st.pcs[t].d, st.pcs[t].b;
    owner' := if b < Blocks(d) then owner - {d.direct[b] as int} else owner;
    assert -1 !in owner;
    NobodyUses(st, owner, mem, -1);
    Finish(st, owner, mem, st', owner', mem, t, -1);
  }

  /** The contents once k more bytes are stored. */
  lemma WrittenMore(c: seq<byte>, n: nat, offset: nat, data: seq<byte>, w: nat, k: nat, p: nat)
    requires w + k <= |data| && k > 0 && |c| <= n && offset + w + k <= n
    ensures At(Written(c, n, offset, data[..w + k]), p) ==
            if offset + w <= p < offset + w + k then data[p - offset] else At(Written(c, n, offset, data[..w]), p)
  {
  }

  /** The sectors once the bytes data[w..w + k] are stored at pos. */
  function Chunked(d: InodeData, view: seq<Sector>, pos: nat, chunk: seq<byte>): seq<Sector>
    requires WfInode(d) && pos / SECTOR_SIZE < NUM_DIRECT && d.direct[pos / SECTOR_SIZE] < |view|
    requires pos % SECTOR_SIZE + |chunk| <= SECTOR_SIZE
  {
    var s := d.direct[pos / SECTOR_SIZE];
    view[s := Splice(view[s], pos % SECTOR_SIZE, chunk)]
  }

  /** Byte p of the file is one of the chunk's or the one it was. */
  lemma ChunkedByte(owner: Owners, i: int, d: InodeData, view: seq<Sector>, pos: nat, chunk: seq<byte>, p: nat)
    requires Holds(owner, i, d) && pos < Blocks(d) * SECTOR_SIZE && p < Blocks(d) * SECTOR_SIZE && chunk != []
    requires forall b :: 0 <= b < Blocks(d) ==> d.direct[b] < |view|
    requires pos % SECTOR_SIZE + |chunk| <= SECTOR_SIZE
    ensures pos / SECTOR_SIZE < Blocks(d) && p / SECTOR_SIZE < Blocks(d)
    ensures Chunked(d, view, pos, chunk)[d.direct[p / SECTOR_SIZE]][p % SECTOR_SIZE] ==
            if pos <= p < pos + |chunk| then chunk[p - pos] else view[d.direct[p / SECTOR_SIZE]][p % SECTOR_SIZE]
  {
    InChunk(pos, |chunk|, p);
    var n, b := pos / SECTOR_SIZE, p / SECTOR_SIZE;
    assert n < Blocks(d) && b < Blocks(d);
    assert owner[d.direct[n]] == BlockOf(i, n) && owner[d.direct[b]] == BlockOf(i, b);
    SplicedByte(view, d.direct[n], pos % SECTOR_SIZE, chunk, d.direct[b], p % SECTOR_SIZE);
  }

  /** One more chunk of the data in place. */
  lemma ChunkShows(owner: Owners, i: int, d: InodeData, view: seq<Sector>, c: seq<byte>, offset: nat, data: seq<byte>, w: nat, k: nat)
    requires Holds(owner, i, d) && w + k <= |data| && k > 0 && |c| <= d.length && offset + w + k <= d.length
    requires (offset + w) % SECTOR_SIZE + k <= SECTOR_SIZE
    requires Shows(d, view, Written(c, d.length, offset, data[..w]))
    ensures (offset + w) / SECTOR_SIZE < NUM_DIRECT && d.direct[(offset + w) / SECTOR_SIZE] < |view|
    ensures Shows(d, Chunked(d, view, offset + w, data[w..w + k]), Written(c, d.length, offset, data[..w + k]))
  {
    var pos := offset + w;
    assert pos < Blocks(d) * SECTOR_SIZE;
    hide Written, At, Chunked, Holds;
    forall p: nat | p < Blocks(d) * SECTOR_SIZE
      ensures Chunked(d, view, pos, data[w..w + k])[d.direct[p / SECTOR_SIZE]][p % SECTOR_SIZE]
              == At(Written(c, d.length, offset, data[..w + k]), p)
    {
      ChunkShowsAt(owner, i, d, view, c, offset, data, w, k, p);
    }
  }

  lemma ChunkShowsAt(owner: Owners, i: int, d: InodeData, view: seq<Sector>, c: seq<byte>, offset: nat, data: seq<byte>,
                     w: nat, k: nat, p: nat)
    requires Holds(owner, i, d) && w + k <= |data| && k > 0 && |c| <= d.length && offset + w + k <= d.length
    requires (offset + w) % SECTOR_SIZE + k <= SECTOR_SIZE && p < Blocks(d) * SECTOR_SIZE
    requires Shows(d, view, Written(c, d.length, offset, data[..w]))
    ensures (offset + w) / SECTOR_SIZE < NUM_DIRECT && d.direct[(offset + w) / SECTOR_SIZE] < |view|
    ensures Chunked(d, view, offset + w, data[w..w + k])[d.direct[p / SECTOR_SIZE]][p % SECTOR_SIZE]
            == At(Written(c, d.length, offset, data[..w + k]), p)
  {
    var was := Written(c, d.length, offset, data[..w]);
    assert view[d.direct[p / SECTOR_SIZE]][p % SECTOR_SIZE] == At(was, p);
    assert offset + w < Blocks(d) * SECTOR_SIZE;
    assert forall b :: 0 <= b < Blocks(d) ==> d.direct[b] < |view|;
    hide Shows, Written, At, Chunked, Holds, Blocks;
    WrittenMore(c, d.length, offset, data, w, k, p);
    ChunkedByte(owner, i, d, view, offset + w, data[w..w + k], p);
  }

  /** Where byte p of the file lies relative to a chunk inside one sector. */
  lemma InChunk(pos: nat, k: nat, p: nat)
    requires pos % SECTOR_SIZE + k <= SECTOR_SIZE && k > 0
    ensures pos <= p < pos + k <==>
            p / SECTOR_SIZE == pos / SECTOR_SIZE && pos % SECTOR_SIZE <= p % SECTOR_SIZE < pos % SECTOR_SIZE + k
    ensures p / SECTOR_SIZE == pos / SECTOR_SIZE ==> p - pos == p % SECTOR_SIZE - pos % SECTOR_SIZE
  {
  }

  lemma SplicedByte(view: seq<Sector>, s: nat, o: nat, chunk: seq<byte>, x: nat, r: nat)
    requires s < |view| && x < |view| && o + |chunk| <= SECTOR_SIZE && r < SECTOR_SIZE
    ensures view[s := Splice(view[s], o, chunk)][x][r] == if x == s && o <= r < o + |chunk| then chunk[r - o] else view[x][r]
  {
  }

  /** A store into a block of the file leaves the inode's own sector, and so the inode on disk. */
  lemma ChunkFileOk(st: State, owner: Owners, i: int, d: InodeData, pos: nat, chunk: seq<byte>, st': State)
    requires Marks(st, owner) && FileOk(st, owner, i) && i in st.open && d == st.open[i].data && st'.open == st.open
    requires pos < Blocks(d) * SECTOR_SIZE && pos % SECTOR_SIZE + |chunk| <= SECTOR_SIZE
    ensures pos / SECTOR_SIZE < NUM_DIRECT && d.direct[pos / SECTOR_SIZE] < |st.vol.view|
    ensures st'.vol.view == Chunked(d, st.vol.view, pos, chunk) ==> FileOk(st', owner, i)
    ensures st'.vol.view == Chunked(d, st.vol.view, pos, chunk) ==>
              forall y :: y in owner && owner[y] != BlockOf(i, pos / SECTOR_SIZE) && y < |st.vol.view| ==> st'.vol.view[y] == st.vol.view[y]
  {
    hide DecodeInode, Splice;
    assert owner[d.direct[pos / SECTOR_SIZE]] == BlockOf(i, pos / SECTOR_SIZE);
  }

  /** The chunk a storing thread writes. */
  lemma StoreMoves(st: State, t: nat, op: Op, st': State)
    requires t < |st.pcs| && |st'.pcs| == |st.pcs| && st.pcs[t].Storing? && st'.pcs[t].Storing? && Writes(st, t, op, st')
    ensures
      var i, offset, data, w := st.pcs[t].i, st.pcs[t].offset, st.pcs[t].data, st.pcs[t].w;
      && i in st.open && w < st'.pcs[t].w <= |data|
      && var d, pos, k := st.open[i].data, offset + w, st'.pcs[t].w - w;
         && WfInode(d) && pos + k <= d.length && pos % SECTOR_SIZE + k <= SECTOR_SIZE
         && pos / SECTOR_SIZE < NUM_DIRECT && d.direct[pos / SECTOR_SIZE] < |st.vol.view|
         && st' == st.(vol := Volume(st.vol.used, Chunked(d, st.vol.view, pos, data[w..w + k])),
                       pcs := st.pcs[t := Storing(i, offset, data, w + k)])
  {
    hide EncodeInode, DecodeInode, Splice;
  }

  lemma StoreKeeps(st: State, owner: Owners, mem: map<int, seq<byte>>, t: nat, op: Op, st': State)
    requires Inv(st, owner, mem) && t < |st.pcs| && |st'.pcs| == |st.pcs| && st.pcs[t].Storing? && st'.pcs[t].Storing? && Writes(st, t, op, st')
    ensures Inv(st', owner, mem)
  {
    StoreMoves(st, t, op, st');
    hide DecodeInode, EncodeInode, Writes;
    assert PcOk(st, owner, mem, t);
    var i, offset, data, w := st.pcs[t].i, st.pcs[t].offset, st.pcs[t].data, st.pcs[t].w;
    var d := st.open[i].data;
    var k := st'.pcs[t].w - w;
    OnlyOne(st, owner, mem, t, i);
    assert FileOk(st, owner, i);
    ChunkFileOk(st, owner, i, d, offset + w, data[w..w + k], st');
    if i in mem {
      ChunkShows(owner, i, d, st.vol.view, mem[i], offset, data, w, k);
    }
    assert StoreOk(st', mem, i, offset, data, w + k);
    assert Busy(st', i) by { assert Uses(st'.pcs[t]) == Some(i); }
    assert Marks(st', owner) && mem.Keys <= st'.live && FileOk(st', owner, i);
    assert SectorsKept(st, owner, st', owner, t, i) && FilesKept(st, mem, st', mem, i) && ThreadsKept(st, st', t, i);
    hide Chunked, Shows, StoreOk, FileOk, Inv, AtRest, Marks, SectorsKept, FilesKept, ThreadsKept, Busy;
    Finish(st, owner, mem, st', owner, mem, t, i);
  }

  lemma StoreEnds(st: State, owner: Owners, mem: map<int, seq<byte>>, t: nat, op: Op, st': State)
    requires Inv(st, owner, mem) && t < |st.pcs| == |st'.pcs| && st.pcs[t].Storing? && st'.pcs[t].Idle? && Writes(st, t, op, st')
    ensures Inv(st', owner, Recorded(mem, Shown(st, t, op)))
  {
    hide DecodeInode, EncodeInode;
    assert PcOk(st, owner, mem, t);
    var i := st.pcs[t].i;
    OnlyOne(st, owner, mem, t, i);
    assert FileOk(st, owner, i);
    Finish(st, owner, mem, st', owner, Recorded(mem, Shown(st, t, op)), t, i);
  }

  /** The next chunk of the file's recorded contents. */
  lemma ChunkRead(d: InodeData, view: seq<Sector>, c: seq<byte>, pos: nat, k: nat)
    requires Shows(d, view, c) && |c| == d.length && pos + k <= d.length && k > 0 && pos % SECTOR_SIZE + k <= SECTOR_SIZE
    ensures view[d.direct[pos / SECTOR_SIZE]][pos % SECTOR_SIZE..pos % SECTOR_SIZE + k] == c[pos..pos + k]
  {
    var chunk := view[d.direct[pos / SECTOR_SIZE]][pos % SECTOR_SIZE..pos % SECTOR_SIZE + k];
    forall q | 0 <= q < k ensures chunk[q] == c[pos + q] {
      assert (pos + q) / SECTOR_SIZE == pos / SECTOR_SIZE && (pos + q) % SECTOR_SIZE == pos % SECTOR_SIZE + q;
      assert view[d.direct[(pos + q) / SECTOR_SIZE]][(pos + q) % SECTOR_SIZE] == At(c, pos + q);
    }
  }

  /** The next round of a read delivers the next bytes. */
  lemma ReadNext(st: State, mem: map<int, seq<byte>>, i: int, offset: nat, size: nat, bytes: seq<byte>)
    requires ReadOk(st, mem, i, offset, size, bytes) && |bytes| < size && offset + |bytes| < st.open[i].data.length
    requires WfInode(st.open[i].data) && Blocks(st.open[i].data) <= NUM_DIRECT
    requires forall b :: 0 <= b < Blocks(st.open[i].data) ==> st.open[i].data.direct[b] < |st.vol.view|
    ensures
      var d, pos := st.open[i].data, offset + |bytes|;
      var k := ChunkSize(d.length, pos, size - |bytes|);
      pos / SECTOR_SIZE < NUM_DIRECT && d.direct[pos / SECTOR_SIZE] < |st.vol.view|
      && ReadOk(st, mem, i, offset, size,
                bytes + st.vol.view[d.direct[pos / SECTOR_SIZE]][pos % SECTOR_SIZE..pos % SECTOR_SIZE + k])
  {
    var d, pos := st.open[i].data, offset + |bytes|;
    var k := ChunkSize(d.length, pos, size - |bytes|);
    assert pos / SECTOR_SIZE < Blocks(d);
    if i in mem {
      ChunkRead(d, st.vol.view, mem[i], pos, k);
      assert mem[i][offset..offset + |bytes|] + mem[i][pos..pos + k] == mem[i][offset..pos + k];
    }
  }

  lemma PcsOnly(st: State, owner: Owners, mem: map<int, seq<byte>>, i: int, st': State)
    requires st' == st.(pcs := st'.pcs)
    ensures FileOk(st', owner, i) <==> FileOk(st, owner, i)
    ensures AtRest(st', mem, i) <==> AtRest(st, mem, i)
    ensures forall offset, size, bytes :: ReadOk(st', mem, i, offset, size, bytes) <==> ReadOk(st, mem, i, offset, size, bytes)
  {
  }

  /** A read moves nothing but its thread. */
  lemma ReadMovesOnly(st: State, owner: Owners, mem: map<int, seq<byte>>, t: nat, op: Op, st': State)
    requires Inv(st, owner, mem) && t < |st.pcs| && st.pcs[t].Reading? && FileProtocol.Reads(st, t, op, st')
    ensures st' == st.(pcs := st'.pcs) && |st'.pcs| == |st.pcs|
    ensures ThreadsKept(st, st', t, st.pcs[t].i)
  {
    OnlyOne(st, owner, mem, t, st.pcs[t].i);
    hide Inv, ChunkSize, WfInode;
  }

  lemma ReadPc(st: State, owner: Owners, mem: map<int, seq<byte>>, t: nat, op: Op, st': State)
    requires Inv(st, owner, mem) && t < |st.pcs| == |st'.pcs| && st.pcs[t].Reading? && FileProtocol.Reads(st, t, op, st')
    ensures PcOk(st', owner, mem, t)
  {
    hide DecodeInode, Shows;
    assert PcOk(st, owner, mem, t);
    var i, offset, size, bytes := st.pcs[t].i, st.pcs[t].offset, st.pcs[t].size, st.pcs[t].bytes;
    assert FileOk(st, owner, i);
    assert forall b :: 0 <= b < Blocks(st.open[i].data) ==> st.open[i].data.direct[b] < |st.vol.view|;
    PcsOnly(st, owner, mem, i, st');
    hide FileOk, AtRest, ReadOk, Inv;
    if |bytes| < size && offset + |bytes| < st.open[i].data.length {
      ReadNext(st, mem, i, offset, size, bytes);
    }
  }

  lemma ReadKeeps(st: State, owner: Owners, mem: map<int, seq<byte>>, t: nat, op: Op, st': State)
    requires Inv(st, owner, mem) && t < |st.pcs| && st.pcs[t].Reading? && FileProtocol.Reads(st, t, op, st')
    ensures Inv(st', owner, mem)
  {
    ReadMovesOnly(st, owner, mem, t, op, st');
    ReadPc(st, owner, mem, t, op, st');
    assert PcOk(st, owner, mem, t);
    var i := st.pcs[t].i;
    assert FileOk(st, owner, i) && AtRest(st, mem, i) && Marks(st, owner);
    PcsOnly(st, owner, mem, i, st');
    hide FileProtocol.Reads, PcOk, FileOk, AtRest, ReadOk, Shows, DecodeInode, Inv, ThreadsKept, Busy;
    Finish(st, owner, mem, st', owner, mem, t, i);
  }

  // ---------------------------------------------------------------- all steps

  /**
   What a completed operation must say of the recorded contents: a read delivers all bytes there are from
   offset up to size, and a write stores as many as fit the file's new length, which is no shorter.
   */
  ghost predicate Truthful(mem: map<int, seq<byte>>, ev: Event) {
    match ev
    case DidRead(i, offset, size, bytes) =>
      i in mem ==>
        && |bytes| == Max(0, Min(size, |mem[i]| - offset))
        && (bytes != [] ==> bytes == mem[i][offset..offset + |bytes|])
    case DidWrite(i, n, offset, data, w) => w == Max(0, Min(|data|, n - offset)) && (i in mem ==> |mem[i]| <= n)
    case _ => true
  }

  lemma ShownIsTruthful(st: State, owner: Owners, mem: map<int, seq<byte>>, t: nat, op: Op)
    requires Inv(st, owner, mem) && t < |st.pcs|
    ensures Truthful(mem, Shown(st, t, op))
  {
    hide DecodeInode, Shows;
    assert PcOk(st, owner, mem, t);
  }

  lemma BeginsKeep(st: State, owner: Owners, mem: map<int, seq<byte>>, t: nat, op: Op, st': State) returns (owner': Owners)
    requires Inv(st, owner, mem) && t < |st.pcs| && st.pcs[t].Idle? && Begins(st, t, op, st')
    ensures Inv(st', owner', Recorded(mem, Shown(st, t, op)))
  {
    hide Inv, DecodeInode, Busy;
    owner' := owner;
    match op
    case AllocSector(_) => owner' := PendingKeeps(st, owner, mem, t, op, st');
    case FreeSector(_) => owner' := PendingKeeps(st, owner, mem, t, op, st');
    case BeginCreate(_, _) => owner' := BeginCreateKeeps(st, owner, mem, t, op, st');
    case Open(_) => OpenKeeps(st, owner, mem, t, op, st');
    case Remove(_) => OpenKeeps(st, owner, mem, t, op, st');
    case Close(i) =>
      if st.open[i].count > 1 {
        OpenKeeps(st, owner, mem, t, op, st');
      } else if st.open[i].removed {
        owner' := DropBegins(st, owner, mem, t, op, st');
      } else {
        ForgetKeeps(st, owner, mem, t, op, st');
      }
    case BeginWrite(_, _, _) => BeginWriteKeeps(st, owner, mem, t, op, st');
    case BeginRead(_, _, _) => BeginReadKeeps(st, owner, mem, t, op, st');
  }

  lemma CreatesKeep(st: State, owner: Owners, mem: map<int, seq<byte>>, t: nat, op: Op, st': State) returns (owner': Owners)
    requires Inv(st, owner, mem) && t < |st.pcs| && Creates(st, t, op, st')
    ensures Inv(st', owner', Recorded(mem, Shown(st, t, op)))
  {
    hide Inv, DecodeInode, EncodeInode;
    owner' := owner;
    match st.pcs[t]
    case Creating(_, length, d) =>
      if op.Take? {
        owner' := TakeKeeps(st, owner, mem, t, op, st');
      } else if d.length < length {
        CreateFailKeeps(st, owner, mem, t, op, st');
      } else {
        CreateEnds(st, owner, mem, t, op, st');
      }
    case CreateTook(_, _, _, x) =>
      if x > UINT16_MAX {
        owner' := TooBigKeeps(st, owner, mem, t, op, st');
      } else {
        owner' := CreateAppends(st, owner, mem, t, op, st');
      }
    case CreateBack(_, _, _) => owner' := CreateBackKeeps(st, owner, mem, t, op, st');
  }

  lemma WritesKeep(st: State, owner: Owners, mem: map<int, seq<byte>>, t: nat, op: Op, st': State) returns (owner': Owners)
    requires Inv(st, owner, mem) && t < |st.pcs| && Writes(st, t, op, st')
    ensures Inv(st', owner', Recorded(mem, Shown(st, t, op)))
  {
    hide Inv, DecodeInode, EncodeInode, Splice;
    owner' := owner;
    match st.pcs[t]
    case Growing(_, _, _) =>
      if op.Take? {
        owner' := TakeKeeps(st, owner, mem, t, op, st');
      } else {
        GrowEnds(st, owner, mem, t, op, st');
      }
    case GrowTook(_, _, _, x) =>
      if x > UINT16_MAX {
        owner' := TooBigKeeps(st, owner, mem, t, op, st');
      } else {
        owner' := GrowAppends(st, owner, mem, t, op, st');
      }
    case Storing(i, offset, data, w) =>
      if w < |data| && offset + w < st.open[i].data.length {
        StoreKeeps(st, owner, mem, t, op, st');
      } else {
        StoreEnds(st, owner, mem, t, op, st');
      }
  }

  /** Every step of every thread, in whatever order, keeps the invariant. */
  lemma {:induction false} StepKeeps(st: State, owner: Owners, mem: map<int, seq<byte>>, t: nat, op: Op, st': State)
    returns (owner': Owners)
    requires Inv(st, owner, mem) && Step(st, t, op, st')
    ensures Inv(st', owner', Recorded(mem, Shown(st, t, op))) && Truthful(mem, Shown(st, t, op))
  {
    ShownIsTruthful(st, owner, mem, t, op);
    hide Inv, DecodeInode, Begins, Truthful;
    if st.pcs[t].Idle? {
      owner' := BeginsKeep(st, owner, mem, t, op, st');
    } else if Creates(st, t, op, st') {
      owner' := CreatesKeep(st, owner, mem, t, op, st');
    } else if Writes(st, t, op, st') {
      owner' := WritesKeep(st, owner, mem, t, op, st');
    } else if FileProtocol.Reads(st, t, op, st') {
      owner' := owner;
      ReadKeeps(st, owner, mem, t, op, st');
    } else {
      owner' := DropKeeps(st, owner, mem, t, op, st');
    }
  }
}
