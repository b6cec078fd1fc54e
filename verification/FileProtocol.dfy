/**
 The file system with several threads at once, one allocation, release or cache access at a step
 (file-system/filesys/inode.c and free-map.c). An inode's lock keeps its reads, its writes and its last
 close apart; nothing keeps operations on different inodes apart, so their allocations interleave freely.
 Taken as one step each: the scan and flip of the bitmap, changes to the list of open inodes, and a cache
 access (justified by CacheProtocol, since AccessesApart). Files stay within the direct range, and the
 volume is the one without the free map's own file.
 */
module FileProtocol {
  import opened Machine
  import opened FreeSectors
  import opened InodeMap
  import opened FileContent
  import opened InodeCodec
  import opened Inodes
  import FileRuns

  /** Where a thread is; i is an inode whose lock it holds, s the sector of an inode it is creating. */
  datatype Pc =
    | Idle
    | Creating(s: int, length: int, d: InodeData)                // extend_disk on the new inode
    | CreateTook(s: int, length: int, d: InodeData, x: nat)      // sector x just marked
    | CreateBack(s: int, d: InodeData, b: nat)                   // failed: giving back the blocks from b on
    | Growing(i: int, offset: nat, data: seq<byte>)              // extend_disk in inode_write_at
    | GrowTook(i: int, offset: nat, data: seq<byte>, x: nat)
    | Storing(i: int, offset: nat, data: seq<byte>, w: nat)      // w bytes stored
    | Reading(i: int, offset: nat, size: nat, bytes: seq<byte>)  // the bytes read so far
    | Dropping(d: InodeData, b: nat)                             // a removed inode's last close, from block b on

  /**
   pending: sectors allocated for an inode not yet being created, the reserved ones among them; live and open as
   in FileRuns; saves: the free map's file can be written, so that an allocation fails only for want of a sector.
   */
  datatype State = State(
    vol: Volume,
    reserved: set<int>,
    pending: set<int>,
    live: set<int>,
    open: map<int, FileRuns.OpenInode>,
    saves: bool,
    pcs: seq<Pc>)

  datatype Op =
    | AllocSector(s: int)
    | FreeSector(s: int)
    | BeginCreate(s: int, length: int)
    | Open(i: int)
    | Remove(i: int)
    | Close(i: int)
    | BeginWrite(i: int, offset: nat, data: seq<byte>)
    | BeginRead(i: int, offset: nat, size: nat)
    | Take(x: nat)   // the bitmap's scan and flip finds sector x
    | Go             // any other step of an operation under way

  /** The inode whose lock a thread holds, or which it is creating. */
  function Uses(pc: Pc): Option<int> {
    match pc
    case Creating(s, _, _) => Some(s)
    case CreateTook(s, _, _, _) => Some(s)
    case CreateBack(s, _, _) => Some(s)
    case Growing(i, _, _) => Some(i)
    case GrowTook(i, _, _, _) => Some(i)
    case Storing(i, _, _, _) => Some(i)
    case Reading(i, _, _, _) => Some(i)
    case _ => None
  }

  ghost predicate Busy(st: State, i: int) {
    exists u :: 0 <= u < |st.pcs| && Uses(st.pcs[u]) == Some(i)
  }

  function Disk(st: State, i: int): InodeData
    requires 0 <= i < |st.vol.view|
  {
    DecodeInode(st.vol.view[i])
  }

  /** The inode that counts: the one in memory if it is open. */
  function Data(st: State, i: int): InodeData
    requires 0 <= i < |st.vol.view|
  {
    if i in st.open then st.open[i].data else Disk(st, i)
  }

  // ---------------------------------------------------------------- steps

  function Goto(st: State, t: nat, pc: Pc): State
    requires t < |st.pcs|
  {
    st.(pcs := st.pcs[t := pc])
  }

  function Marked(st: State, x: nat, b: bool): State
    requires x < |st.vol.used|
  {
    st.(vol := Volume(st.vol.used[x := b], st.vol.view))
  }

  function Wrote(st: State, x: nat, data: Sector): State
    requires x < |st.vol.view|
  {
    st.(vol := Volume(st.vol.used, st.vol.view[x := data]))
  }

  function SetData(st: State, i: int, d: InodeData): State
    requires i in st.open
  {
    st.(open := st.open[i := st.open[i].(data := d)])
  }

  /** append_sector's effect on the inode, with sector x. */
  function WithBlock(d: InodeData, x: uint16): InodeData
    requires WfInode(d) && Blocks(d) < NUM_DIRECT
  {
    d.(direct := d.direct[Blocks(d) := x], length := (Blocks(d) + 1) * SECTOR_SIZE)
  }

  /** The bytes of one round of the loops of inode_read_at and inode_write_at. */
  function ChunkSize(length: int, pos: nat, left: nat): (k: nat)
    requires pos < length && left > 0
    ensures 0 < k <= left && pos + k <= length && pos % SECTOR_SIZE + k <= SECTOR_SIZE
  {
    Min(left, Min(length - pos, SECTOR_SIZE - pos % SECTOR_SIZE))
  }

  /** free_map_allocate can find sector s. */
  ghost predicate Finds(st: State, s: int) { st.saves && FirstFree(st.vol.used, s) }

  /** free_map_allocate fails. */
  ghost predicate NothingFound(st: State) {
    st.saves ==> forall s :: 0 <= s < |st.vol.used| ==> st.vol.used[s]
  }

  ghost predicate Begins(st: State, t: nat, op: Op, st': State)
    requires t < |st.pcs|
  {
    match op
    case AllocSector(s) =>
      Finds(st, s) && st' == Marked(st, s, true).(pending := st.pending + {s})
    case FreeSector(s) =>
      s in st.pending && s !in st.reserved && 0 <= s < |st.vol.used| &&
      st' == Marked(st, s, false).(pending := st.pending - {s})
    case BeginCreate(s, length) =>
      s in st.pending && s !in st.reserved && length <= DIRECT_BYTES &&
      st' == Goto(st.(pending := st.pending - {s}), t, Creating(s, length, EmptyInode()))
    case Open(i) =>
      i in st.live && 0 <= i < |st.vol.view| && !Busy(st, i) &&
      st' == st.(open := st.open[i := if i in st.open then st.open[i].(count := st.open[i].count + 1)
                                      else FileRuns.OpenInode(1, false, Disk(st, i))])
    case Remove(i) =>
      i in st.open && !Busy(st, i) && st' == st.(open := st.open[i := st.open[i].(removed := true)])
    case Close(i) => i in st.open && !Busy(st, i) && Closes(st, t, i, st')
    case BeginWrite(i, offset, data) =>
      i in st.open && !Busy(st, i) && offset + |data| <= DIRECT_BYTES &&
      var d := st.open[i].data;
      st' == if d.length >= offset + |data| || d.length < 0 then Goto(st, t, Storing(i, offset, data, 0))
             else Goto(SetData(st, i, d.(length := RoundUp(d.length, SECTOR_SIZE))), t, Growing(i, offset, data))
    case BeginRead(i, offset, size) =>
      i in st.open && !Busy(st, i) && st' == Goto(st, t, Reading(i, offset, size, []))
    case _ => false
  }

  /** inode_close. */
  ghost predicate Closes(st: State, t: nat, i: int, st': State)
    requires t < |st.pcs| && i in st.open
  {
    var o := st.open[i];
    if o.count > 1 then st' == st.(open := st.open[i := o.(count := o.count - 1)])
    else if !o.removed then st' == st.(open := st.open - {i})
    else
      0 <= i < |st.vol.used| &&
      st' == Goto(Marked(st, i, false).(open := st.open - {i}, live := st.live - {i}), t, Dropping(o.data, 0))
  }

  /** A step of inode_create. */
  ghost predicate Creates(st: State, t: nat, op: Op, st': State)
    requires t < |st.pcs|
  {
    match st.pcs[t]
    case Creating(s, length, d) =>
      || (op.Take? && d.length < length && Finds(st, op.x)
          && st' == Goto(Marked(st, op.x, true), t, CreateTook(s, length, d, op.x)))
      || (op.Go? && d.length < length && NothingFound(st) && st' == Goto(st, t, CreateBack(s, d, 0)))
      || (op.Go? && d.length >= length && 0 <= s < |st.vol.view| && WfInode(d.(length := Max(0, length)))
          && st' == Goto(Wrote(st, s, EncodeInode(d.(length := Max(0, length)))).(live := st.live + {s}), t, Idle))
    case CreateTook(s, length, d, x) =>
      op.Go? && x < |st.vol.used| &&
      if x > UINT16_MAX then st' == Goto(Marked(st, x, false), t, CreateBack(s, d, 0))
      else
        x < |st.vol.view| && WfInode(d) && Blocks(d) < NUM_DIRECT &&
        st' == Goto(Wrote(st, x, ZeroSector()), t, Creating(s, length, WithBlock(d, x)))
    case CreateBack(s, d, b) =>
      op.Go? && WfInode(d) && Blocks(d) <= NUM_DIRECT &&
      if b < Blocks(d) then d.direct[b] < |st.vol.used| && st' == Goto(Marked(st, d.direct[b], false), t, CreateBack(s, d, b + 1))
      else st' == Goto(st.(pending := st.pending + {s}), t, Idle)
    case _ => false
  }

  /** A step of inode_write_at. */
  ghost predicate Writes(st: State, t: nat, op: Op, st': State)
    requires t < |st.pcs|
  {
    match st.pcs[t]
    case Growing(i, offset, data) =>
      i in st.open &&
      var d := st.open[i].data;
      || (op.Take? && d.length < offset + |data| && Finds(st, op.x)
          && st' == Goto(Marked(st, op.x, true), t, GrowTook(i, offset, data, op.x)))
      || (op.Go? && (d.length < offset + |data| ==> NothingFound(st))
          && st' == Goto(SetData(st, i, d.(length := Min(d.length, offset + |data|))), t, Storing(i, offset, data, 0)))
    case GrowTook(i, offset, data, x) =>
      op.Go? && i in st.open && x < |st.vol.used| &&
      var d := st.open[i].data;
      if x > UINT16_MAX then st' == Goto(Marked(st, x, false), t, Storing(i, offset, data, 0))
      else
        x < |st.vol.view| && WfInode(d) && Blocks(d) < NUM_DIRECT &&
        st' == Goto(SetData(Wrote(st, x, ZeroSector()), i, WithBlock(d, x)), t, Growing(i, offset, data))
    case Storing(i, offset, data, w) =>
      op.Go? && i in st.open && w <= |data| &&
      var d := st.open[i].data;
      if w < |data| && offset + w < d.length then
        var pos := offset + w;
        var k := ChunkSize(d.length, pos, |data| - w);
        WfInode(d) && pos / SECTOR_SIZE < NUM_DIRECT && d.direct[pos / SECTOR_SIZE] < |st.vol.view| &&
        var s := d.direct[pos / SECTOR_SIZE];
        st' == Goto(Wrote(st, s, Splice(st.vol.view[s], pos % SECTOR_SIZE, data[w..w + k])), t, Storing(i, offset, data, w + k))
      else st' == Goto(st, t, Idle)
    case _ => false
  }

  /** A step of inode_read_at. */
  ghost predicate Reads(st: State, t: nat, op: Op, st': State)
    requires t < |st.pcs|
  {
    match st.pcs[t]
    case Reading(i, offset, size, bytes) =>
      op.Go? && i in st.open && |bytes| <= size &&
      var d := st.open[i].data;
      if |bytes| < size && offset + |bytes| < d.length then
        var pos := offset + |bytes|;
        var k := ChunkSize(d.length, pos, size - |bytes|);
        WfInode(d) && pos / SECTOR_SIZE < NUM_DIRECT && d.direct[pos / SECTOR_SIZE] < |st.vol.view| &&
        var s := d.direct[pos / SECTOR_SIZE];
        st' == Goto(st, t, Reading(i, offset, size, bytes + st.vol.view[s][pos % SECTOR_SIZE..pos % SECTOR_SIZE + k]))
      else st' == Goto(st, t, Idle)
    case _ => false
  }

  /** A step of a removed inode's last close. */
  ghost predicate Drops(st: State, t: nat, op: Op, st': State)
    requires t < |st.pcs|
  {
    match st.pcs[t]
    case Dropping(d, b) =>
      op.Go? && WfInode(d) && Blocks(d) <= NUM_DIRECT &&
      if b < Blocks(d) then d.direct[b] < |st.vol.used| && st' == Goto(Marked(st, d.direct[b], false), t, Dropping(d, b + 1))
      else st' == Goto(st, t, Idle)
    case _ => false
  }

  ghost predicate Step(st: State, t: nat, op: Op, st': State) {
    && t < |st.pcs| && WfVolume(st.vol)
    && if st.pcs[t].Idle? then Begins(st, t, op, st')
       else Creates(st, t, op, st') || Writes(st, t, op, st') || Reads(st, t, op, st') || Drops(st, t, op, st')
  }

  // ---------------------------------------------------------------- what has happened to the files

  datatype Event =
    | Silent
    | DidCreate(i: int, n: nat)
    | DidWrite(i: int, n: nat, offset: nat, data: seq<byte>, w: nat)   // w bytes stored, the file n bytes long
    | DidRead(i: int, offset: nat, size: nat, bytes: seq<byte>)
    | Forgot(i: int)                                                   // the last close of a file that had grown
    | DidRemove(i: int)

  /** What a step completes. */
  function Shown(st: State, t: nat, op: Op): Event
    requires t < |st.pcs|
  {
    match st.pcs[t]
    case Creating(s, length, d) => if op.Go? && d.length >= length then DidCreate(s, Max(0, length)) else Silent
    case Storing(i, offset, data, w) =>
      if i in st.open && w <= |data| && !(w < |data| && offset + w < st.open[i].data.length) && st.open[i].data.length >= 0
      then DidWrite(i, st.open[i].data.length, offset, data, w) else Silent
    case Reading(i, offset, size, bytes) =>
      if i in st.open && !(|bytes| < size && offset + |bytes| < st.open[i].data.length) then DidRead(i, offset, size, bytes) else Silent
    case Idle =>
      if op.Close? && op.i in st.open && st.open[op.i].count <= 1 && 0 <= op.i < |st.vol.view| then
        if st.open[op.i].removed then DidRemove(op.i)
        else if st.open[op.i].data.length != Disk(st, op.i).length then Forgot(op.i) else Silent
      else Silent
    case _ => Silent
  }

  /** The contents of the files that have not lost growth, given what has been completed. */
  function Recorded(mem: map<int, seq<byte>>, ev: Event): map<int, seq<byte>> {
    match ev
    case DidCreate(i, n) => mem[i := Zeros(n)]
    case DidWrite(i, n, offset, data, w) =>
      if i in mem && |mem[i]| <= n && w <= |data| && (w > 0 ==> offset + w <= n)
      then mem[i := Written(mem[i], n, offset, data[..w])] else mem - {i}
    case Forgot(i) => mem - {i}
    case DidRemove(i) => mem - {i}
    case _ => mem
  }
}
