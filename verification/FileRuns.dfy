/**
 Whole runs of the file system: any sequence of allocating an inode's sector, creating, opening,
 writing, removing and closing, each step being what module Inodes proves the code to do. The runs
 stay within the direct range (file-system/filesys/inode.c goes wrong past it: see IndexSectors).
 */
module FileRuns {
  import opened Machine
  import opened FreeSectors
  import opened FreeMapFiles
  import opened InodeMap
  import opened IndexedFiles
  import opened FileContent
  import opened InodeCodec
  import opened Inodes
  import opened Space
  import opened InodeTables

  datatype OpenInode = OpenInode(count: int, removed: bool, data: InodeData)

  /**
   vol: the volume without the free map's own file (Inodes.FileSystem.Vol);
   reserved: the free map's inode sector and the blocks of its file, which only the free map itself writes;
   pending: those, and sectors allocated for an inode that is not yet created; live: sectors that hold a created
   inode not yet released; stale: inodes that were once closed with a length their sector does not say;
   saves: the free map's file can be written.
   */
  datatype Fs = Fs(
    vol: Volume,
    reserved: set<int>,
    pending: set<int>,
    live: set<int>,
    open: map<int, OpenInode>,
    stale: set<int>,
    saves: bool)

  datatype Op =
    | AllocSector(s: int)
    | FreeSector(s: int)
    | Create(s: int, length: int, memory: bool, ok: bool, d: InodeData)
    | Open(s: int)
    | Write(s: int, offset: nat, data: seq<byte>, mid: Growth, log: seq<Append>, w: nat)
    | Remove(s: int)
    | Close(s: int)

  /** The inode as a later inode_open would read it. */
  function OnDisk(fs: Fs, i: int): InodeData
    requires 0 <= i < |fs.vol.view|
  {
    DecodeInode(fs.vol.view[i])
  }

  /** The inode that counts: the one in memory if it is open. */
  function DataOf(fs: Fs, i: int): InodeData
    requires 0 <= i < |fs.vol.view|
  {
    if i in fs.open then fs.open[i].data else OnDisk(fs, i)
  }

  /** The free map's file has been made, or there is none yet; nothing else is allocated but the root directory's inode sector. */
  ghost predicate Init(fs: Fs) {
    && WfVolume(fs.vol) && |fs.vol.used| >= 2
    && FREE_MAP_SECTOR in fs.reserved && ROOT_DIR_SECTOR !in fs.reserved
    && (forall s :: s in fs.reserved ==> 0 <= s < |fs.vol.used|)
    && (forall s :: 0 <= s < |fs.vol.used| ==> (fs.vol.used[s] <==> s in fs.reserved || s == ROOT_DIR_SECTOR))
    && fs.pending == fs.reserved + {ROOT_DIR_SECTOR}
    && fs.live == {} && fs.open == map[] && fs.stale == {}
  }

  /** What files can grow on. */
  ghost function StockOf(fs: Fs): Supply { Supply(Spare(fs.vol.used), fs.saves) }

  ghost predicate Closed(fs: Fs, s: int, fs': Fs)
    requires s in fs.open && 0 <= s < |fs.vol.view|
  {
    var o := fs.open[s];
    if o.count > 1 then fs' == fs.(open := fs.open[s := o.(count := o.count - 1)])
    else if o.removed then
      && ReleasedInode(s, o.data, fs.vol.view, fs.vol.used, fs'.vol.used)
      && fs' == fs.(vol := Volume(fs'.vol.used, fs.vol.view), live := fs.live - {s},
                    open := fs.open - {s}, stale := fs.stale - {s})
    else
      fs' == fs.(open := fs.open - {s},
                 stale := if o.data.length == OnDisk(fs, s).length then fs.stale else fs.stale + {s})
  }

  ghost predicate Step(fs: Fs, op: Op, fs': Fs) {
    match op
    case AllocSector(s) =>
      fs.saves && FirstFree(fs.vol.used, s) && |fs.vol.used| == |fs.vol.view| &&
      fs' == fs.(vol := Volume(fs.vol.used[s := true], fs.vol.view), pending := fs.pending + {s})
    case FreeSector(s) =>
      s in fs.pending && s !in fs.reserved && 0 <= s < |fs.vol.used| &&
      fs' == fs.(vol := Volume(fs.vol.used[s := false], fs.vol.view), pending := fs.pending - {s})
    case Create(s, length, memory, ok, d) =>
      && s in fs.pending && s !in fs.reserved && length <= DIRECT_BYTES && 0 <= s
      && (ok <==> memory && (length <= 0 || HasRoom(0, length, StockOf(fs))))
      && if ok then
           && Created(fs.vol, fs'.vol, s, length, d)
           && fs' == fs.(vol := fs'.vol, pending := fs.pending - {s}, live := fs.live + {s})
         else
           CreateFailed(fs.vol, fs'.vol) && fs' == fs.(vol := fs'.vol)
    case Open(s) =>
      && s in fs.live && 0 <= s < |fs.vol.view|
      && fs' == fs.(open := fs.open[s := if s in fs.open then fs.open[s].(count := fs.open[s].count + 1)
                                         else OpenInode(1, false, OnDisk(fs, s))])
    case Write(s, offset, data, mid, log, w) =>
      && s in fs.open && offset + |data| <= DIRECT_BYTES
      && |fs'.vol.used| == |fs.vol.used| && s in fs'.open
      && WriteOutcome(Growth(fs.open[s].data, fs.vol), mid, Growth(fs'.open[s].data, fs'.vol), offset, data, log, w)
      && 0 <= fs.open[s].data.length && GrowsTo(fs.open[s].data.length, offset + |data|, StockOf(fs), mid.d.length)
      && fs' == fs.(vol := fs'.vol, open := fs.open[s := fs.open[s].(data := mid.d)])
    case Remove(s) =>
      s in fs.open &&
      fs' == fs.(open := fs.open[s := fs.open[s].(removed := true)])
    case Close(s) =>
      s in fs.open && 0 <= s < |fs.vol.view| && Closed(fs, s, fs')
  }

  // ---------------------------------------------------------------- the ownership invariant

  /** Who a marked sector belongs to. */
  datatype Owner = InodeSector(inode: int) | Block(inode: int, b: nat)

  type Owners = map<int, Owner>

  /** An inode of the direct range, with the indirect table it was created with. */
  ghost predicate Shape(d: InodeData) {
    WfInode(d) && d.length <= DIRECT_BYTES && d.indirect == EmptyInode().indirect
  }

  ghost predicate Owned(owner: Owners, i: int, d: InodeData) {
    Shape(d) && forall b :: 0 <= b < Blocks(d) ==> d.direct[b] in owner && owner[d.direct[b]] == Block(i, b)
  }

  /** d' is d grown: no shorter, and with d's block map as a prefix of its own. */
  ghost predicate Extends(d: InodeData, d': InodeData)
    requires WfInode(d) && WfInode(d') && Blocks(d') <= NUM_DIRECT
  {
    && d.length <= d'.length && Blocks(d) <= Blocks(d')
    && forall b :: 0 <= b < Blocks(d) ==> d'.direct[b] == d.direct[b]
  }

  ghost predicate LiveOk(fs: Fs, owner: Owners, i: int) {
    && 0 <= i < |fs.vol.view| && i in owner && owner[i] == InodeSector(i)
    && Owned(owner, i, DataOf(fs, i)) && Owned(owner, i, OnDisk(fs, i))
    && Extends(OnDisk(fs, i), DataOf(fs, i))
    && (i in fs.open ==> fs.open[i].count > 0)
    && (i !in fs.stale ==> Readable(DataOf(fs, i), fs.vol.view) && CleanTail(DataOf(fs, i), fs.vol.view))
  }

  ghost predicate Inv(fs: Fs, owner: Owners) {
    && WfVolume(fs.vol)
    && (forall s :: s in fs.pending ==> 0 <= s < |fs.vol.used| && fs.vol.used[s] && s !in owner)
    && (forall s :: s in owner ==> 0 <= s < |fs.vol.used| && fs.vol.used[s])
    && (forall i :: i in fs.live ==> LiveOk(fs, owner, i))
    && fs.open.Keys <= fs.live && fs.stale <= fs.live
    && FREE_MAP_SECTOR in fs.reserved && fs.reserved <= fs.pending
  }

  /**
   What the invariant means: blocks of live inodes, inode sectors and pending sectors are all marked
   and pairwise different, and each block map is injective.
   */
  lemma OwnershipIsDisjoint(fs: Fs, owner: Owners, i: int, j: int, b: nat, c: nat)
    requires Inv(fs, owner) && i in fs.live && j in fs.live
    requires b < Blocks(DataOf(fs, i)) && c < Blocks(DataOf(fs, j))
    ensures Shape(DataOf(fs, i)) && Shape(DataOf(fs, j))
    ensures
      var s, t := DataOf(fs, i).direct[b], DataOf(fs, j).direct[c];
      && s < |fs.vol.used| && fs.vol.used[s]
      && s !in fs.live && s !in fs.pending
      && (s == t ==> i == j && b == c)
    ensures 0 <= i < |fs.vol.used| && fs.vol.used[i] && i !in fs.pending
  {
    assert LiveOk(fs, owner, i) && LiveOk(fs, owner, j);
    var s := DataOf(fs, i).direct[b];
    forall x | x in fs.live ensures owner[x] == InodeSector(x) {
      assert LiveOk(fs, owner, x);
    }
  }

  /** Hence every live inode meets what writing, closing and releasing it need: the assertion in free_map_release holds. */
  lemma LiveIsReleasable(fs: Fs, owner: Owners, i: int)
    requires Inv(fs, owner) && i in fs.live
    ensures 0 <= i < |fs.vol.used| && fs.vol.used[i]
    ensures DirectInode(DataOf(fs, i), fs.vol.used) && !OwnsBlock(DataOf(fs, i), i)
    ensures Readable(DataOf(fs, i), fs.vol.view) && Sound(Growth(DataOf(fs, i), fs.vol))
  {
    assert LiveOk(fs, owner, i);
    var d := DataOf(fs, i);
    forall b, c | 0 <= b < c < Blocks(d) ensures d.direct[b] != d.direct[c] {
      OwnershipIsDisjoint(fs, owner, i, i, b, c);
    }
  }

  /** And none uses a block of the free map's file, so what writing and closing require of that file holds too. */
  lemma LiveIsOffMap(fs: Fs, owner: Owners, i: int, blocks: seq<uint16>)
    requires Inv(fs, owner) && i in fs.live
    requires forall s :: s in blocks ==> s in fs.reserved && s != FREE_MAP_SECTOR
    ensures Readable(DataOf(fs, i), fs.vol.view) && OffFile(DataOf(fs, i), fs.vol.view, blocks) && i !in blocks
  {
    assert LiveOk(fs, owner, i);
    LiveIsReleasable(fs, owner, i);
  }

  /** Changes that keep away from an inode's blocks do not change what it reads as. */
  lemma SameContent(d: InodeData, view: seq<Sector>, view': seq<Sector>)
    requires Readable(d, view) && Blocks(d) <= NUM_DIRECT && |view'| == |view|
    requires forall b :: 0 <= b < Blocks(d) ==> d.direct[b] < |view| && view'[d.direct[b]] == view[d.direct[b]]
    ensures Readable(d, view') && Content(d, view') == Content(d, view)
    ensures CleanTail(d, view) ==> CleanTail(d, view')
  {
    assert forall p :: 0 <= p < Blocks(d) * SECTOR_SIZE ==> ByteAt(d, view', p) == ByteAt(d, view, p);
  }

  /** A live inode that a step does not touch stays as it was, content included. */
  lemma Untouched(fs: Fs, fs': Fs, owner: Owners, owner': Owners, i: int)
    requires Inv(fs, owner) && i in fs.live && |fs'.vol.view| == |fs.vol.view|
    requires forall s :: s in owner && owner[s].inode == i ==>
               s in owner' && owner'[s] == owner[s] && fs'.vol.view[s] == fs.vol.view[s]
    requires (i in fs'.open <==> i in fs.open) && (i in fs.open ==> fs'.open[i] == fs.open[i])
    requires i in fs'.stale <==> i in fs.stale
    ensures LiveOk(fs', owner', i) && DataOf(fs', i) == DataOf(fs, i)
    ensures Readable(DataOf(fs, i), fs.vol.view) && Readable(DataOf(fs', i), fs'.vol.view)
    ensures Content(DataOf(fs', i), fs'.vol.view) == Content(DataOf(fs, i), fs.vol.view)
  {
    assert LiveOk(fs, owner, i);
    LiveIsReleasable(fs, owner, i);
    SameContent(DataOf(fs, i), fs.vol.view, fs'.vol.view);
  }

  // ---------------------------------------------------------------- growth adds owners

  function NewSectors(d: InodeData, d': InodeData): set<int>
    requires |d'.direct| == NUM_DIRECT && 0 <= d.length && 0 <= d'.length && Blocks(d') <= NUM_DIRECT
  {
    set b | Blocks(d) <= b < Blocks(d') :: d'.direct[b]
  }

  ghost function BlockIndex(d: InodeData, d': InodeData, s: int): nat
    requires |d'.direct| == NUM_DIRECT && 0 <= d.length && 0 <= d'.length && Blocks(d') <= NUM_DIRECT
    requires s in NewSectors(d, d')
  {
    var b :| Blocks(d) <= b < Blocks(d') && d'.direct[b] == s;
    b
  }

  ghost function Claim(owner: Owners, i: int, d: InodeData, d': InodeData): Owners
    requires |d'.direct| == NUM_DIRECT && 0 <= d.length && 0 <= d'.length && Blocks(d') <= NUM_DIRECT
  {
    owner + map s | s in NewSectors(d, d') :: Block(i, BlockIndex(d, d', s))
  }

  lemma NewSectorsUnused(d: InodeData, vol: Volume, d': InodeData, vol': Volume)
    requires FreshlyGrown(d, vol, d', vol')
    ensures forall s :: s in NewSectors(d, d') ==> 0 <= s < |vol.used| && !vol.used[s] && vol'.used[s]
    ensures forall s :: 0 <= s < |vol.used| && vol.used[s] ==> vol'.used[s] && vol'.view[s] == vol.view[s]
  {
    forall s | s in NewSectors(d, d') ensures NewBlock(d, d', s) && s < |vol.used| && !vol.used[s] {
    }
    forall s | 0 <= s < |vol.used| && vol.used[s] ensures !NewBlock(d, d', s) {
    }
  }

  lemma ClaimBlocks(owner: Owners, i: int, d: InodeData, vol: Volume, d': InodeData, vol': Volume)
    requires FreshlyGrown(d, vol, d', vol') && Owned(owner, i, d)
    requires forall s :: s in owner ==> s !in NewSectors(d, d')
    ensures Owned(Claim(owner, i, d, d'), i, d')
  {
    var owner' := Claim(owner, i, d, d');
    forall b | 0 <= b < Blocks(d') ensures d'.direct[b] in owner' && owner'[d'.direct[b]] == Block(i, b) {
      if b < Blocks(d) {
        assert owner[d.direct[b]] == Block(i, b);
      } else {
        assert d'.direct[b] in NewSectors(d, d');
      }
    }
  }

  lemma ClaimOwns(owner: Owners, i: int, d: InodeData, vol: Volume, d': InodeData, vol': Volume)
    requires FreshlyGrown(d, vol, d', vol') && Owned(owner, i, d)
    requires forall s :: s in owner ==> 0 <= s < |vol.used| && vol.used[s]
    ensures
      var owner' := Claim(owner, i, d, d');
      && Owned(owner', i, d')
      && (forall s :: s in owner ==> s in owner' && owner'[s] == owner[s] && vol'.view[s] == vol.view[s])
      && (forall s :: s in owner' ==> 0 <= s < |vol'.used| && vol'.used[s])
      && (forall s :: s in owner' ==> s in owner || !vol.used[s])
  {
    NewSectorsUnused(d, vol, d', vol');
    ClaimBlocks(owner, i, d, vol, d', vol');
  }

  // ---------------------------------------------------------------- every step keeps the invariant

  lemma AllocKeeps(fs: Fs, owner: Owners, s: int, fs': Fs)
    requires Inv(fs, owner) && Step(fs, AllocSector(s), fs')
    ensures Inv(fs', owner)
    ensures SameFiles(fs, fs', fs.live)
  {
    forall i | i in fs.live { Untouched(fs, fs', owner, owner, i); }
  }

  lemma FreeKeeps(fs: Fs, owner: Owners, s: int, fs': Fs)
    requires Inv(fs, owner) && Step(fs, FreeSector(s), fs')
    ensures Inv(fs', owner)
    ensures SameFiles(fs, fs', fs.live)
  {
    forall i | i in fs.live { Untouched(fs, fs', owner, owner, i); }
  }

  /** Files of these inodes read the same before and after. */
  ghost predicate SameFiles(fs: Fs, fs': Fs, inodes: set<int>) {
    |fs'.vol.view| == |fs.vol.view| &&
    forall i :: i in inodes ==> SameFile(fs, fs', i)
  }

  ghost predicate SameFile(fs: Fs, fs': Fs, i: int) {
    && 0 <= i < |fs.vol.view| && 0 <= i < |fs'.vol.view|
    && DataOf(fs', i) == DataOf(fs, i)
    && Readable(DataOf(fs, i), fs.vol.view) && Readable(DataOf(fs', i), fs'.vol.view)
    && Content(DataOf(fs', i), fs'.vol.view) == Content(DataOf(fs, i), fs.vol.view)
  }

  lemma RemoveKeeps(fs: Fs, owner: Owners, s: int, fs': Fs)
    requires Inv(fs, owner) && Step(fs, Remove(s), fs')
    ensures Inv(fs', owner)
    ensures SameFiles(fs, fs', fs.live)
  {
    forall i | i in fs.live ensures LiveOk(fs', owner, i) && SameFile(fs, fs', i) {
      assert LiveOk(fs, owner, i);
      LiveIsReleasable(fs, owner, i);
    }
  }

  lemma OpenKeeps(fs: Fs, owner: Owners, s: int, fs': Fs)
    requires Inv(fs, owner) && Step(fs, Open(s), fs')
    ensures Inv(fs', owner)
    ensures SameFiles(fs, fs', fs.live)
  {
    forall i | i in fs.live ensures LiveOk(fs', owner, i) && SameFile(fs, fs', i) {
      assert LiveOk(fs, owner, i);
      LiveIsReleasable(fs, owner, i);
    }
  }

  lemma CreateFails(fs: Fs, owner: Owners, op: Op, fs': Fs)
    requires Inv(fs, owner) && op.Create? && !op.ok && Step(fs, op, fs')
    ensures Inv(fs', owner)
    ensures SameFiles(fs, fs', fs.live)
  {
    forall i | i in fs.live { Untouched(fs, fs', owner, owner, i); }
  }

  /** A new file reads as zeros, and its sector as its inode. */
  lemma CreatedReads(vol: Volume, s: nat, d: InodeData, mid: Volume, view: seq<Sector>)
    requires FreshlyGrown(EmptyInode(), vol, d, mid) && s < |vol.used| && vol.used[s]
    requires view == mid.view[s := EncodeInode(d)]
    ensures Readable(d, view) && CleanTail(d, view) && DecodeInode(view[s]) == d
    ensures forall b :: 0 <= b < Blocks(d) ==> d.direct[b] != s
  {
    DecodeEncode(d);
    NewSectorsUnused(EmptyInode(), vol, d, mid);
    GrownBytes(EmptyInode(), vol, d, mid);
    hide FreshlyGrown, NewBlock, EncodeInode, DecodeInode;
    assert forall b :: 0 <= b < Blocks(d) ==> d.direct[b] in NewSectors(EmptyInode(), d);
    DirectBytesElsewhere(d, mid.view, s, EncodeInode(d));
  }

  lemma DirectBytesElsewhere(d: InodeData, view: seq<Sector>, s: nat, data: Sector)
    requires Readable(d, view) && Blocks(d) <= NUM_DIRECT && s < |view|
    requires forall b :: 0 <= b < Blocks(d) ==> d.direct[b] != s
    ensures Readable(d, view[s := data])
    ensures forall p :: 0 <= p < Blocks(d) * SECTOR_SIZE ==> ByteAt(d, view[s := data], p) == ByteAt(d, view, p)
  {
    assert forall b :: 0 <= b < Blocks(d) ==> Entry(d, view, b) == d.direct[b];
    assert forall b :: 0 <= b < Blocks(d) ==> Entry(d, view[s := data], b) == d.direct[b];
    forall p | 0 <= p < Blocks(d) * SECTOR_SIZE ensures ByteAt(d, view[s := data], p) == ByteAt(d, view, p) {
      assert d.direct[p / SECTOR_SIZE] != s;
    }
  }

  lemma CreatedIsLive(fs: Fs, owner: Owners, op: Op, fs': Fs, mid: Volume)
    requires Inv(fs, owner) && op.Create? && op.ok && Step(fs, op, fs')
    requires FreshlyGrown(EmptyInode(), fs.vol, op.d, mid)
    requires fs'.vol == Volume(mid.used, mid.view[op.s := EncodeInode(op.d)])
    ensures LiveOk(fs', Claim(owner, op.s, EmptyInode(), op.d)[op.s := InodeSector(op.s)], op.s)
    ensures OnDisk(fs', op.s) == op.d && op.s !in fs.live
  {
    var s, d := op.s, op.d;
    forall x | x in fs.live ensures x in owner {
      assert LiveOk(fs, owner, x);
    }
    CreatedReads(fs.vol, s, d, mid, fs'.vol.view);
    ClaimOwns(owner, s, EmptyInode(), fs.vol, d, mid);
    hide FreshlyGrown, Created, DecodeInode, EncodeInode, CleanTail, LiveOk;
    CreatedLiveOk(fs', Claim(owner, s, EmptyInode(), d), s, d);
  }

  lemma CreatedLiveOk(fs: Fs, owner: Owners, s: int, d: InodeData)
    requires 0 <= s < |fs.vol.view| && OnDisk(fs, s) == d && s !in fs.open
    requires Owned(owner, s, d) && forall b :: 0 <= b < Blocks(d) ==> d.direct[b] != s
    requires Readable(d, fs.vol.view) && CleanTail(d, fs.vol.view)
    ensures LiveOk(fs, owner[s := InodeSector(s)], s)
  {
    var o := owner[s := InodeSector(s)];
    assert Owned(o, s, DataOf(fs, s)) && Extends(OnDisk(fs, s), DataOf(fs, s));
    assert LiveOk(fs, o, s);
  }

  lemma CreateKeeps(fs: Fs, owner: Owners, op: Op, fs': Fs) returns (owner': Owners)
    requires Inv(fs, owner) && op.Create? && op.ok && Step(fs, op, fs')
    ensures Inv(fs', owner')
    ensures SameFiles(fs, fs', fs.live)
  {
    var s, d := op.s, op.d;
    var mid: Volume :| FreshlyGrown(EmptyInode(), fs.vol, d, mid)
                       && fs'.vol == Volume(mid.used, mid.view[s := EncodeInode(d)]);
    owner' := Claim(owner, s, EmptyInode(), d)[s := InodeSector(s)];
    CreatedIsLive(fs, owner, op, fs', mid);
    ClaimOwns(owner, s, EmptyInode(), fs.vol, d, mid);
    forall i | i in fs.live { Untouched(fs, fs', owner, owner', i); }
  }

  /** What a write does to the file written: its place in the invariant, and its bytes. */
  lemma WriteOwner(fs: Fs, owner: Owners, op: Op, fs': Fs)
    requires Inv(fs, owner) && op.Write? && Step(fs, op, fs')
    ensures
      var d := fs.open[op.s].data;
      && FreshlyGrown(d, fs.vol, op.mid.d, op.mid.vol)
      && Owned(Claim(owner, op.s, d, op.mid.d), op.s, op.mid.d)
      && (forall t :: t in owner ==> t in Claim(owner, op.s, d, op.mid.d) && Claim(owner, op.s, d, op.mid.d)[t] == owner[t])
      && (forall t :: t in Claim(owner, op.s, d, op.mid.d) ==> 0 <= t < |fs'.vol.used| && fs'.vol.used[t])
      && (forall t :: t in Claim(owner, op.s, d, op.mid.d) ==> t in owner || !fs.vol.used[t])
      && (forall t :: t in owner && (owner[t].inode != op.s || owner[t].InodeSector?) ==>
            fs'.vol.view[t] == fs.vol.view[t])
  {
    var d := fs.open[op.s].data;
    var g, g' := Growth(d, fs.vol), Growth(fs'.open[op.s].data, fs'.vol);
    assert LiveOk(fs, owner, op.s);
    LiveIsReleasable(fs, owner, op.s);
    ExtendedDirect(g, op.mid, op.offset + |op.data|, op.log);
    ClaimOwns(owner, op.s, d, fs.vol, op.mid.d, op.mid.vol);
    forall t | t in owner && (owner[t].inode != op.s || owner[t].InodeSector?) ensures fs'.vol.view[t] == fs.vol.view[t] {
      WriteFrame(g, op.mid, g', op.offset, op.data, op.log, op.w, t);
    }
  }

  lemma WriteLive(fs: Fs, owner: Owners, op: Op, fs': Fs)
    requires Inv(fs, owner) && op.Write? && Step(fs, op, fs')
    ensures LiveOk(fs', Claim(owner, op.s, fs.open[op.s].data, op.mid.d), op.s)
    ensures op.s !in fs.stale ==> FileWritten(fs, op, fs')
  {
    hide Content, Written, CanAppendAll, Extended, ByteAt;
    var d := fs.open[op.s].data;
    assert LiveOk(fs, owner, op.s);
    LiveIsReleasable(fs, owner, op.s);
    WriteOwner(fs, owner, op, fs');
    var g, g' := Growth(d, fs.vol), Growth(fs'.open[op.s].data, fs'.vol);
    ExtendedLength(g, op.mid, op.offset + |op.data|, op.log);
    if op.s !in fs.stale {
      WriteRefines(g, op.mid, g', op.offset, op.data, op.log, op.w);
    }
  }

  /** The file written is the old one, zeros up to its new length, and the data in place. */
  ghost predicate FileWritten(fs: Fs, op: Op, fs': Fs)
    requires op.Write?
  {
    && 0 <= op.s < |fs.vol.view| && |fs'.vol.view| == |fs.vol.view| && op.w <= |op.data|
    && Readable(DataOf(fs, op.s), fs.vol.view) && Readable(DataOf(fs', op.s), fs'.vol.view)
    && DataOf(fs, op.s).length <= DataOf(fs', op.s).length
    && (op.w > 0 ==> op.offset + op.w <= DataOf(fs', op.s).length)
    && Content(DataOf(fs', op.s), fs'.vol.view) ==
         Written(Content(DataOf(fs, op.s), fs.vol.view), DataOf(fs', op.s).length, op.offset, op.data[..op.w])
  }

  lemma WriteKeeps(fs: Fs, owner: Owners, op: Op, fs': Fs) returns (owner': Owners)
    requires Inv(fs, owner) && op.Write? && Step(fs, op, fs')
    ensures Inv(fs', owner')
    ensures SameFiles(fs, fs', fs.live - {op.s})
    ensures op.s !in fs.stale ==> FileWritten(fs, op, fs')
  {
    owner' := Claim(owner, op.s, fs.open[op.s].data, op.mid.d);
    WriteOwner(fs, owner, op, fs');
    WriteLive(fs, owner, op, fs');
    forall i | i in fs.live - {op.s} { Untouched(fs, fs', owner, owner', i); }
  }

  /** Closing for good forgets growth: the file reads as the prefix its sector knows of. */
  ghost predicate FileClosed(fs: Fs, s: int, fs': Fs) {
    && 0 <= s < |fs.vol.view| && 0 <= s < |fs'.vol.view|
    && Readable(DataOf(fs, s), fs.vol.view) && Readable(OnDisk(fs, s), fs'.vol.view)
    && OnDisk(fs, s).length <= DataOf(fs, s).length
    && DataOf(fs', s) == OnDisk(fs, s)
    && Content(DataOf(fs', s), fs'.vol.view) == Content(DataOf(fs, s), fs.vol.view)[..OnDisk(fs, s).length]
  }

  lemma CloseCounts(fs: Fs, owner: Owners, s: int, fs': Fs)
    requires Inv(fs, owner) && Step(fs, Close(s), fs') && fs.open[s].count > 1
    ensures Inv(fs', owner)
    ensures SameFiles(fs, fs', fs.live)
  {
    forall i | i in fs.live ensures LiveOk(fs', owner, i) && SameFile(fs, fs', i) {
      assert LiveOk(fs, owner, i);
      LiveIsReleasable(fs, owner, i);
    }
  }

  lemma ClosedFile(fs: Fs, owner: Owners, s: int, fs': Fs)
    requires Inv(fs, owner) && Step(fs, Close(s), fs') && fs.open[s].count == 1 && !fs.open[s].removed
    ensures LiveOk(fs', owner, s) && FileClosed(fs, s, fs')
  {
    assert LiveOk(fs, owner, s);
    LiveIsReleasable(fs, owner, s);
    var d, e, view := OnDisk(fs, s), fs.open[s].data, fs.vol.view;
    assert forall p :: 0 <= p < Blocks(d) * SECTOR_SIZE ==> ByteAt(d, view, p) == ByteAt(e, view, p);
  }

  lemma CloseForgets(fs: Fs, owner: Owners, s: int, fs': Fs)
    requires Inv(fs, owner) && Step(fs, Close(s), fs') && fs.open[s].count == 1 && !fs.open[s].removed
    ensures Inv(fs', owner)
    ensures SameFiles(fs, fs', fs.live - {s}) && FileClosed(fs, s, fs')
  {
    ClosedFile(fs, owner, s, fs');
    forall i | i in fs.live - {s} { Untouched(fs, fs', owner, owner, i); }
  }

  /**
   The last close of a removed inode: every sector given back was marked and belongs to this inode
   alone, so no release asserts, none is released twice, and no other file is touched.
   */
  lemma CloseReleases(fs: Fs, owner: Owners, s: int, fs': Fs) returns (owner': Owners)
    requires Inv(fs, owner) && Step(fs, Close(s), fs') && fs.open[s].count == 1 && fs.open[s].removed
    ensures Inv(fs', owner')
    ensures SameFiles(fs, fs', fs.live - {s}) && s !in fs'.live
    ensures DirectInode(fs.open[s].data, fs.vol.used) && fs.vol.used[s] && !OwnsBlock(fs.open[s].data, s)
  {
    var d := fs.open[s].data;
    LiveIsReleasable(fs, owner, s);
    assert LiveOk(fs, owner, s);
    owner' := map t | t in owner && owner[t].inode != s :: owner[t];
    forall t | t in owner && owner[t].inode != s ensures fs'.vol.used[t] {
      assert !OwnsBlock(d, t);
    }
    forall t | t in fs.pending ensures fs'.vol.used[t] {
      assert !OwnsBlock(d, t);
    }
    forall i | i in fs.live - {s} { Untouched(fs, fs', owner, owner', i); }
  }

  /** The inode an operation works on; every other file is left alone. */
  lemma {:induction false} StepKeeps(fs: Fs, owner: Owners, op: Op, fs': Fs) returns (owner': Owners)
    requires Inv(fs, owner) && Step(fs, op, fs')
    ensures Inv(fs', owner')
    ensures SameFiles(fs, fs', fs.live - {op.s})
    ensures op.Write? && op.s !in fs.stale ==> FileWritten(fs, op, fs')
    ensures op.Close? && fs.open[op.s].count == 1 && !fs.open[op.s].removed ==> FileClosed(fs, op.s, fs')
  {
    owner' := owner;
    match op
    case AllocSector(s) => AllocKeeps(fs, owner, s, fs');
    case FreeSector(s) => FreeKeeps(fs, owner, s, fs');
    case Create(s, length, memory, ok, d) =>
      if ok {
        owner' := CreateKeeps(fs, owner, op, fs');
      } else {
        CreateFails(fs, owner, op, fs');
      }
    case Open(s) => OpenKeeps(fs, owner, s, fs');
    case Write(s, offset, data, mid, log, w) => owner' := WriteKeeps(fs, owner, op, fs');
    case Remove(s) => RemoveKeeps(fs, owner, s, fs');
    case Close(s) =>
      assert LiveOk(fs, owner, s);
      if fs.open[s].count > 1 {
        CloseCounts(fs, owner, s, fs');
      } else if fs.open[s].removed {
        owner' := CloseReleases(fs, owner, s, fs');
      } else {
        CloseForgets(fs, owner, s, fs');
      }
  }

  /** A run: the states passed through, one more than the operations. */
  ghost predicate Run(states: seq<Fs>, ops: seq<Op>) {
    && |states| == |ops| + 1 && Init(states[0])
    && forall k :: 0 <= k < |ops| ==> Step(states[k], ops[k], states[k + 1])
  }

  /** Every state of every run meets the ownership invariant. */
  lemma {:induction false} RunsKeepOwnership(states: seq<Fs>, ops: seq<Op>, n: nat) returns (owner: Owners)
    requires Run(states, ops) && n < |states|
    ensures Inv(states[n], owner)
    decreases n
  {
    if n == 0 {
      owner := map[];
    } else {
      owner := RunsKeepOwnership(states, ops, n - 1);
      owner := StepKeeps(states[n - 1], owner, ops[n - 1], states[n]);
    }
  }

  /** All the data is stored exactly if the file need not grow or there is room for it to. */
  ghost predicate WholeIff(fs: Fs, op: Op)
    requires op.Write?
  {
    && op.s in fs.open && 0 <= fs.open[op.s].data.length
    && var from, to := fs.open[op.s].data.length, op.offset + |op.data|;
       op.w == |op.data| <==> op.data == [] || to <= from || HasRoom(from, to, StockOf(fs))
  }

  lemma WritesWholeIff(fs: Fs, op: Op, fs': Fs)
    requires op.Write? && Step(fs, op, fs')
    ensures WholeIff(fs, op)
  {
    hide Extended, Stored, HasRoom, GrowsTo;
    GrowthIsDetermined(fs.open[op.s].data.length, op.offset + |op.data|, StockOf(fs), op.mid.d.length, op.mid.d.length);
  }

  /**
   Over every run: an operation on one inode leaves every other live file's bytes as they were, and a
   write to a file that never lost growth by a close is exactly an assignment to its bytes, zeros
   filling any gap; writes are whole and creations succeed exactly when there is room.
   */
  lemma RunsRefineFiles(states: seq<Fs>, ops: seq<Op>, n: nat)
    requires Run(states, ops) && n < |ops|
    ensures SameFiles(states[n], states[n + 1], states[n].live - {ops[n].s})
    ensures ops[n].Write? && ops[n].s !in states[n].stale ==> FileWritten(states[n], ops[n], states[n + 1])
    ensures ops[n].Write? ==> WholeIff(states[n], ops[n])
    ensures ops[n].Create? ==>
              (ops[n].s in states[n + 1].live <==>
                 ops[n].s in states[n].live
                 || (ops[n].memory && (ops[n].length <= 0 || HasRoom(0, ops[n].length, StockOf(states[n])))))
    ensures ops[n].Close? && states[n].open[ops[n].s].count == 1 && !states[n].open[ops[n].s].removed ==>
              FileClosed(states[n], ops[n].s, states[n + 1])
  {
    var owner := RunsKeepOwnership(states, ops, n);
    assert Step(states[n], ops[n], states[n + 1]);
    owner := StepKeeps(states[n], owner, ops[n], states[n + 1]);
    if ops[n].Write? {
      WritesWholeIff(states[n], ops[n], states[n + 1]);
    }
  }

  // ---------------------------------------------------------------- openers

  /** The number of openers of inode i. */
  function Openers(fs: Fs, i: int): int { if i in fs.open then fs.open[i].count else 0 }

  function Occurrences(ops: seq<Op>, op: Op): nat {
    if ops == [] then 0 else Occurrences(ops[..|ops| - 1], op) + if ops[|ops| - 1] == op then 1 else 0
  }

  lemma StepCountsOpeners(fs: Fs, owner: Owners, op: Op, fs': Fs, i: int)
    requires Inv(fs, owner) && Step(fs, op, fs')
    ensures Openers(fs', i) == Openers(fs, i) + (if op == Open(i) then 1 else if op == Close(i) then -1 else 0)
    ensures i in fs.live && i !in fs'.live <==> op == Close(i) && i in fs.live && Openers(fs, i) == 1 && fs.open[i].removed
    ensures i in fs.open && i in fs'.open ==> (fs'.open[i].removed <==> fs.open[i].removed || op == Remove(i))
    ensures i !in fs.open && i in fs'.open ==> !fs'.open[i].removed
  {
    assert op.s in fs.live ==> LiveOk(fs, owner, op.s);
    assert i in fs.live ==> LiveOk(fs, owner, i);
    hide Extended, Stored, GrowsTo, HasRoom, Created, CreateFailed, ReleasedInode, FirstFree, LiveOk, StockOf;
  }

  /** Over every run an inode has as many openers as it was opened more often than closed. */
  lemma {:induction false} RunsCountOpeners(states: seq<Fs>, ops: seq<Op>, n: nat, i: int)
    requires Run(states, ops) && n < |states|
    ensures Openers(states[n], i) == Occurrences(ops[..n], Open(i)) - Occurrences(ops[..n], Close(i))
    decreases n
  {
    if n > 0 {
      RunsCountOpeners(states, ops, n - 1, i);
      var owner := RunsKeepOwnership(states, ops, n - 1);
      assert Step(states[n - 1], ops[n - 1], states[n]);
      assert ops[..n][..n - 1] == ops[..n - 1];
      hide Step, Inv;
      StepCountsOpeners(states[n - 1], owner, ops[n - 1], states[n], i);
    }
  }

  /**
   Over every run a file goes away exactly when its only opener closes it after it has been removed, by an
   inode_remove since it was opened.
   */
  lemma LastCloseReleases(states: seq<Fs>, ops: seq<Op>, n: nat, i: int)
    requires Run(states, ops) && n < |ops| && i in states[n].live
    ensures
      i !in states[n + 1].live <==>
        && ops[n] == Close(i)
        && Occurrences(ops[..n], Open(i)) - Occurrences(ops[..n], Close(i)) == 1
        && states[n].open[i].removed
    ensures i in states[n].open && i in states[n + 1].open ==>
              (states[n + 1].open[i].removed <==> states[n].open[i].removed || ops[n] == Remove(i))
    ensures i !in states[n].open && i in states[n + 1].open ==> !states[n + 1].open[i].removed
  {
    RunsCountOpeners(states, ops, n, i);
    var owner := RunsKeepOwnership(states, ops, n);
    assert Step(states[n], ops[n], states[n + 1]);
    hide Step, Inv;
    StepCountsOpeners(states[n], owner, ops[n], states[n + 1], i);
  }
}
