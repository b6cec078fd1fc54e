/**
 The code of file-system/filesys/inode.c over the buffer cache and the free map, proved against the
 definitions of InodeMap, IndexSectors and FileContent.
 */
module Inodes {
  import opened Machine
  import opened BufferCache
  import opened FreeSectors
  import opened FreeMapFiles
  import opened InodeMap
  import opened Space
  import opened IndexedFiles
  import opened FileContent
  import opened InodeCodec

  /** struct inode_disk in memory. */
  class DiskInode {
    var length: int
    const direct: array<uint16>
    const indirect: array<uint16>

    ghost predicate Valid()
      reads this
    {
      && direct.Length == NUM_DIRECT && indirect.Length == NUM_INDIRECT && direct != indirect
      && 0 <= length <= MAX_INODE_LEN
    }

    ghost function Data(): InodeData
      reads this, direct, indirect
    {
      InodeData(length, direct[..], indirect[..])
    }

    /** A calloc'ed inode of length 0. */
    constructor Empty()
      ensures Valid() && Data() == EmptyInode()
      ensures fresh(direct) && fresh(indirect)
    {
      length := 0;
      direct := new uint16[NUM_DIRECT](_ => 0);
      indirect := new uint16[NUM_INDIRECT](_ => 0);
    }

    /** An inode copied out of its sector. */
    constructor Load(s: Sector)
      ensures direct.Length == NUM_DIRECT && indirect.Length == NUM_INDIRECT && direct != indirect
      ensures Data() == DecodeInode(s)
      ensures fresh(direct) && fresh(indirect)
    {
      var d := DecodeInode(s);
      length := d.length;
      direct := new uint16[NUM_DIRECT](i requires 0 <= i < NUM_DIRECT => d.direct[i]);
      indirect := new uint16[NUM_INDIRECT](i requires 0 <= i < NUM_INDIRECT => d.indirect[i]);
    }
  }

  ghost function EmptyInode(): InodeData {
    InodeData(0, seq(NUM_DIRECT, _ => 0), seq(NUM_INDIRECT, _ => 0))
  }

  /** struct inode. */
  class Inode {
    const sector: uint32
    var openCnt: int
    var removed: bool
    var denyWriteCnt: int
    const data: DiskInode

    constructor (sector: uint32, data: DiskInode)
      ensures this.sector == sector && this.data == data
      ensures openCnt == 1 && !removed && denyWriteCnt == 0
    {
      this.sector, this.data := sector, data;
      openCnt, removed, denyWriteCnt := 1, false, 0;
    }
  }

  /** The state after append_sector succeeds, before it stores the new length. */
  ghost function AllButLength(g: Growth, a: Append): Growth
    requires CanAppend(g, a)
  {
    var r := Appended(g, a);
    r.(d := r.d.(length := g.d.length))
  }

  /**
   mapFile: the blocks of the open free map file, none while there is no such file; its length is that of
   the bitmap. mapWritable: nobody denies writes to it.
   */
  class FileSystem {
    const freeMap: FreeMap
    const cache: Cache
    var mapFile: seq<uint16>
    const mapWritable: bool

    ghost function Repr(): set<object> {
      {freeMap.bits, cache, cache.entries}
    }

    /** Between operations the free map's file, unless writes to it are denied, says which sectors are used. */
    ghost predicate Valid()
      reads this, freeMap.bits, cache, cache.entries
      ensures Valid() ==> WfVolume(Vol()) && MapOk(mapFile, Vol().used)
      ensures Valid() ==> |Vol().view| == |cache.View()| == |cache.disk| == freeMap.bits.Length
    {
      && cache.Valid() && |freeMap.Used()| == |cache.disk|
      && MapOk(mapFile, freeMap.Used())
      && (mapWritable ==> MapCurrent(mapFile, freeMap.Used(), cache.View()))
    }

    /** The volume as files see it: without the blocks of the free map's own file. */
    ghost function Vol(): Volume
      reads this, freeMap.bits, cache, cache.entries
    {
      Volume(freeMap.Used(), Masked(cache.View(), mapFile))
    }

    /** While the free map has no file. */
    constructor (freeMap: FreeMap, cache: Cache, mapWritable: bool)
      requires cache.Valid() && |freeMap.Used()| == |cache.disk|
      ensures this.freeMap == freeMap && this.cache == cache && this.mapWritable == mapWritable && mapFile == []
      ensures Valid()
    {
      this.freeMap, this.cache, this.mapWritable := freeMap, cache, mapWritable;
      mapFile := [];
    }

    // -------------------------------------------------------------- the free map's file

    /** bitmap_write: inode_write_at on the free map's file, which never grows it. */
    method SaveMap()
      requires cache.Valid() && |freeMap.Used()| == |cache.disk| && MapOk(mapFile, freeMap.Used())
      modifies cache, cache.entries
      ensures cache.Valid() && |cache.disk| == old(|cache.disk|)
      ensures MapCurrent(mapFile, freeMap.Used(), cache.View())
      ensures Masked(cache.View(), mapFile) == old(Masked(cache.View(), mapFile))
    {
      hide BitmapBytes, Masked, Consistent;
      var bytes := BitmapBytes(freeMap.bits[..]);
      var k := 0;
      while k < |mapFile|
        invariant 0 <= k <= |mapFile| && cache.Valid() && |cache.disk| == old(|cache.disk|)
        invariant MapContent(mapFile, cache.View(), Min(k * SECTOR_SIZE, |bytes|)) == bytes[..Min(k * SECTOR_SIZE, |bytes|)]
        invariant Masked(cache.View(), mapFile) == old(Masked(cache.View(), mapFile))
      {
        SaveBlock(bytes, k);
        k := k + 1;
      }
    }

    method SaveBlock(bytes: seq<byte>, k: nat)
      requires cache.Valid() && |freeMap.Used()| == |cache.disk| && MapOk(mapFile, freeMap.Used())
      requires |bytes| == BitmapSize(|freeMap.Used()|) && k < |mapFile|
      requires MapContent(mapFile, cache.View(), Min(k * SECTOR_SIZE, |bytes|)) == bytes[..Min(k * SECTOR_SIZE, |bytes|)]
      modifies cache, cache.entries
      ensures cache.Valid() && |cache.disk| == old(|cache.disk|)
      ensures MapContent(mapFile, cache.View(), Min((k + 1) * SECTOR_SIZE, |bytes|)) ==
              bytes[..Min((k + 1) * SECTOR_SIZE, |bytes|)]
      ensures Masked(cache.View(), mapFile) == old(Masked(cache.View(), mapFile))
    {
      ghost var view := cache.View();
      var n := Min(SECTOR_SIZE, |bytes| - k * SECTOR_SIZE);
      var chunk := bytes[k * SECTOR_SIZE..][..n];
      cache.CacheWrite(mapFile[k], chunk, 0);
      ghost var data := cache.View()[mapFile[k]];
      assert data[..n] == chunk;
      SavedMore(mapFile, view, bytes, k, data);
      MaskedBlock(view, mapFile, mapFile[k], data);
    }

    /** free_map_allocate: the bitmap, and with it the file, gains a sector, or nothing changes. */
    method FreeMapAllocate() returns (r: Option<nat>)
      requires Valid()
      modifies Repr()
      ensures Valid() && Vol().view == old(Vol()).view
      ensures r.None? ==> Vol().used == old(Vol()).used
      ensures r.None? <==> (mapFile != [] && !mapWritable) || forall s :: 0 <= s < |old(Vol()).used| ==> old(Vol()).used[s]
      ensures r.Some? ==> FirstFree(old(Vol()).used, r.value) && Vol().used == old(Vol()).used[r.value := true]
      ensures r.Some? ==> r.value !in mapFile && MapCurrent(mapFile, Vol().used, cache.View())
    {
      hide Consistent, Masked, CacheView, BitmapBytes, MapContent;
      ghost var used := freeMap.Used();
      r := freeMap.Allocate(mapFile == [] || mapWritable);
      if r.Some? {
        MapOkKept(mapFile, used, r.value, true);
      }
      if r.Some? && mapFile != [] {
        SaveMap();
      }
    }

    /** free_map_release; its ASSERT is that the sector is marked. */
    method FreeMapRelease(sector: nat)
      requires Valid() && sector < |Vol().used| && Vol().used[sector] && sector !in mapFile
      modifies Repr()
      ensures Valid() && Vol().view == old(Vol()).view
      ensures Vol().used == old(Vol()).used[sector := false]
    {
      hide Consistent, Masked, MapOk, MapCurrent, CacheView;
      MapOkKept(mapFile, freeMap.Used(), sector, false);
      freeMap.Release(sector);
      if mapWritable {
        SaveMap();
      }
    }

    /** cache_write to a sector that is not the free map's. */
    method Put(sector: uint32, data: seq<byte>, offset: nat)
      requires Valid() && sector < |Vol().view| && sector !in mapFile && offset + |data| <= SECTOR_SIZE
      modifies cache, cache.entries
      ensures Valid()
      ensures Vol() == old(Vol()).(view := old(Vol()).view[sector := Splice(old(Vol()).view[sector], offset, data)])
    {
      ghost var view := cache.View();
      cache.CacheWrite(sector, data, offset);
      MaskedUpdate(view, mapFile, sector, cache.View()[sector]);
      if mapWritable {
        CurrentKept(mapFile, freeMap.Used(), view, sector, cache.View()[sector]);
      }
    }

    /** cache_zero of such a sector. */
    method Zero(sector: uint32)
      requires Valid() && sector < |Vol().view| && sector !in mapFile
      modifies cache, cache.entries
      ensures Valid() && Vol() == old(Vol()).(view := old(Vol()).view[sector := ZeroSector()])
    {
      ghost var view := cache.View();
      cache.CacheZero(sector);
      MaskedUpdate(view, mapFile, sector, cache.View()[sector]);
      if mapWritable {
        CurrentKept(mapFile, freeMap.Used(), view, sector, cache.View()[sector]);
      }
    }

    /** cache_read. */
    method Get(sector: uint32, size: nat, offset: nat) returns (data: seq<byte>)
      requires Valid() && sector < |Vol().view| && offset + size <= SECTOR_SIZE
      modifies cache, cache.entries
      ensures Valid() && Vol() == old(Vol()) && cache.View() == old(cache.View())
      ensures data == cache.View()[sector][offset..offset + size]
    {
      data := cache.CacheRead(sector, size, offset);
    }

    // -------------------------------------------------------------- inode.c

    /** What files can grow on. */
    ghost function Stock(): Supply
      reads this, freeMap.bits, cache, cache.entries
    {
      Supply(Spare(Vol().used), mapFile == [] || mapWritable)
    }

    ghost function GrowthOf(disk: DiskInode): Growth
      reads this, disk, disk.direct, disk.indirect, freeMap.bits, cache, cache.entries
    {
      Growth(disk.Data(), Vol())
    }

    /** The volume without the free map's file shows the same block map. */
    lemma EntryInVol(d: InodeData, b: nat)
      requires Valid() && WfInode(d) && b < Blocks(d) && OffMap(d, mapFile)
      requires b >= NUM_DIRECT ==> d.indirect[Group(b)] < |Vol().view|
      ensures Entry(d, Vol().view, b) == Entry(d, cache.View(), b)
    {
      MaskedEntry(d, cache.View(), mapFile, b);
    }

    /** The block map lookup; the result is the sector, or -1 past the end of the file. */
    method ByteToSectorDisk(disk: DiskInode, pos: nat) returns (s: int)
      requires Valid() && disk.Valid()
      requires pos < disk.length && pos / SECTOR_SIZE >= NUM_DIRECT ==>
                 disk.indirect[Group(pos / SECTOR_SIZE)] < |Vol().view|
      modifies Repr()
      ensures Valid() && Vol() == old(Vol()) && cache.View() == old(cache.View()) && disk.Data() == old(disk.Data())
      ensures s == if pos >= disk.length then -1 else Entry(disk.Data(), cache.View(), pos / SECTOR_SIZE)
    {
      hide Valid, Vol;
      if pos >= disk.length {
        return -1;
      }
      var idx := pos / SECTOR_SIZE;
      if idx < NUM_DIRECT {
        return disk.direct[idx];
      } else {
        var indIdx := Quot(idx - NUM_DIRECT, INDIRECT_LEN);
        var indOfs := Rem(idx - NUM_DIRECT, INDIRECT_LEN);
        var dirIdx := Get(disk.indirect[indIdx], 2, indOfs);
        return FromLe16(dirIdx);
      }
    }

    /** It fails exactly if the free map's file cannot be written or no unused sector fits 16 bits. */
    method AllocateShort() returns (ok: bool, sector: uint16)
      requires Valid()
      modifies Repr()
      ensures Valid()
      ensures ok ==> Fresh(old(Vol()), sector) && sector !in mapFile && Vol() == Take(old(Vol()), sector)
      ensures !ok ==> Vol() == old(Vol())
      ensures ok <==> old(Stock()).saves && old(Stock()).spare > 0
      ensures Stock() == old(Stock()).Less(if ok then 1 else 0)
    {
      hide Valid, Vol, Spare;
      ghost var vol := Vol();
      var r := FreeMapAllocate();
      if r.None? {
        assert Vol() == vol;
        if mapFile == [] || mapWritable {
          NoneUnused(vol.used);
        }
        return false, 0;
      }
      if r.value > UINT16_MAX {
        FreeMapRelease(r.value);
        assert Vol().used == vol.used;
        NoneFits(vol.used, r.value);
        return false, 0;
      }
      assert Fresh(vol, r.value);
      CountMarked(vol.used, r.value);
      Zero(r.value);
      return true, r.value;
    }

    /**
     All or nothing: on success one data sector, and one index sector if a new group starts; on failure
     the free map, the length and every entry of the block map stay (FailedKeepsMap). It fails only for want
     of sectors, or at the size limit.
     */
    method AppendSector(disk: DiskInode) returns (ok: bool, ghost a: Append)
      requires Valid() && disk.Valid() && IndexOk(GrowthOf(disk)) && OffMap(disk.Data(), mapFile)
      modifies Repr(), disk, disk.direct, disk.indirect
      ensures Valid() && disk.Valid()
      ensures ok ==> CanAppend(old(GrowthOf(disk)), a) && GrowthOf(disk) == Appended(old(GrowthOf(disk)), a)
      ensures !ok ==> AppendFailed(old(GrowthOf(disk)), GrowthOf(disk))
      ensures ok <==> old(Blocks(disk.Data())) < MAX_BLOCKS && old(Stock()).saves
                      && Need(old(Blocks(disk.Data()))) <= old(Stock()).spare
      ensures Stock() == old(Stock()).Less(if ok then Need(old(Blocks(disk.Data()))) else 0)
    {
      hide Valid, Vol, Spare;
      a := Append(None, 0);
      var newLength := RoundUp(disk.length, SECTOR_SIZE) + SECTOR_SIZE;
      if newLength > MAX_INODE_LEN {
        return false, a;
      }
      var idx := (newLength - 1) / SECTOR_SIZE;
      assert idx == Blocks(disk.Data());
      if idx < NUM_DIRECT {
        ok, a := AppendDirect(disk, idx);
      } else {
        ok, a := AppendIndexed(disk, idx);
      }
      if ok {
        disk.length := newLength;
      }
    }

    /** The branch of append_sector for the direct slots. */
    method AppendDirect(disk: DiskInode, idx: nat) returns (ok: bool, ghost a: Append)
      requires Valid() && disk.Valid() && idx == Blocks(disk.Data()) < NUM_DIRECT
      requires WfGrowth(GrowthOf(disk))
      modifies Repr(), disk.direct
      ensures Valid()
      ensures ok ==> CanAppend(old(GrowthOf(disk)), a)
      ensures ok ==> GrowthOf(disk) == AllButLength(old(GrowthOf(disk)), a)
      ensures !ok ==> GrowthOf(disk) == old(GrowthOf(disk))
      ensures ok <==> old(Stock()).saves && old(Stock()).spare > 0
      ensures Stock() == old(Stock()).Less(if ok then 1 else 0)
    {
      hide Valid, Vol, Spare;
      a := Append(None, 0);
      var s;
      ok, s := AllocateShort();
      if ok {
        disk.direct[idx] := s;
        a := Append(None, s);
        assert disk.direct[..] == old(disk.direct[..])[idx := s];
      }
    }

    /** The branch of append_sector for the index groups. */
    method AppendIndexed(disk: DiskInode, idx: nat) returns (ok: bool, ghost a: Append)
      requires Valid() && disk.Valid() && NUM_DIRECT <= idx == Blocks(disk.Data()) < MAX_INODE_LEN / SECTOR_SIZE
      requires IndexOk(GrowthOf(disk)) && OffMap(disk.Data(), mapFile)
      modifies Repr(), disk.indirect
      ensures Valid()
      ensures ok ==> CanAppend(old(GrowthOf(disk)), a)
      ensures ok ==> GrowthOf(disk) == AllButLength(old(GrowthOf(disk)), a)
      ensures !ok ==> AppendFailed(old(GrowthOf(disk)), GrowthOf(disk))
      ensures ok <==> old(Stock()).saves && Need(idx) <= old(Stock()).spare
      ensures Stock() == old(Stock()).Less(if ok then Need(idx) else 0)
    {
      hide Valid, Vol, Spare, Appended, IndexOk, OffMap, WithIndex, NeedsIndex;
      ghost var g := GrowthOf(disk);
      var started, newGroup;
      started, newGroup, a := StartGroup(disk, idx);
      if !started {
        return false, a;
      }
      ghost var w := GrowthOf(disk);
      var indIdx := Quot(idx - NUM_DIRECT, INDIRECT_LEN);
      var got, s := AllocateShort();
      if !got {
        if newGroup {
          CountReleased(Vol().used, disk.indirect[indIdx]);
          FreeMapRelease(disk.indirect[indIdx]);
          IndexReleased(g, a, w, GrowthOf(disk));
        } else {
          IndexKept(g, a, w);
        }
        return false, a;
      }
      a := Append(a.index, s);
      IndexedAppend(g, a, w);
      var indOfs := Rem(idx - NUM_DIRECT, INDIRECT_LEN);
      Put(disk.indirect[indIdx], Le16(s), indOfs);
      ok := true;
    }

    /** The index sector of block idx: a new one if the block starts a group. */
    method StartGroup(disk: DiskInode, idx: nat) returns (ok: bool, newGroup: bool, ghost a: Append)
      requires Valid() && disk.Valid() && NUM_DIRECT <= idx == Blocks(disk.Data()) < MAX_INODE_LEN / SECTOR_SIZE
      requires IndexOk(GrowthOf(disk)) && OffMap(disk.Data(), mapFile)
      modifies Repr(), disk.indirect
      ensures Valid() && a.data == 0 && (ok ==> (newGroup <==> a.index.Some?))
      ensures !ok ==> GrowthOf(disk) == old(GrowthOf(disk))
      ensures ok ==>
                && IndexStarted(old(GrowthOf(disk)), a, GrowthOf(disk))
                && var x := disk.indirect[Group(idx)];
                   x < |Vol().used| && Vol().used[x] && x !in mapFile && (a.index.Some? ==> a.index.value == x)
      ensures ok ==> (newGroup <==> Need(idx) == 2)
      ensures ok <==> Need(idx) == 1 || (old(Stock()).saves && old(Stock()).spare > 0)
      ensures Stock() == old(Stock()).Less(if ok then Need(idx) - 1 else 0)
    {
      hide Valid, Vol, Spare;
      ghost var g := GrowthOf(disk);
      NeedsIndexIff(g.d);
      var oldIdx := Quot(disk.length - 1, SECTOR_SIZE);
      var oldIndIdx := Quot(oldIdx - NUM_DIRECT, INDIRECT_LEN);
      var indIdx := Quot(idx - NUM_DIRECT, INDIRECT_LEN);
      ok, a := true, Append(None, 0);
      newGroup := indIdx > oldIndIdx;
      if newGroup {
        var x;
        ok, x := AllocateIndex(disk, indIdx);
        if ok {
          a := Append(Some(x), 0);
        }
      }
    }

    method AllocateIndex(disk: DiskInode, indIdx: nat) returns (ok: bool, x: uint16)
      requires Valid() && disk.Valid() && indIdx < NUM_INDIRECT
      modifies Repr(), disk.indirect
      ensures Valid()
      ensures ok ==> Fresh(old(Vol()), x) && x !in mapFile && Vol() == Take(old(Vol()), x)
      ensures ok ==> disk.Data() == old(disk.Data()).(indirect := old(disk.Data()).indirect[indIdx := x])
      ensures !ok ==> GrowthOf(disk) == old(GrowthOf(disk))
      ensures ok <==> old(Stock()).saves && old(Stock()).spare > 0
      ensures Stock() == old(Stock()).Less(if ok then 1 else 0)
    {
      hide Valid, Vol, Spare;
      ok, x := AllocateShort();
      if ok {
        disk.indirect[indIdx] := x;
        assert disk.indirect[..] == old(disk.indirect[..])[indIdx := x];
      }
    }

    /** extend_disk: terminates for every requested length, with the outcome Extended describes, as far as the sectors left allow. */
    method ExtendDisk(disk: DiskInode, length: int) returns (n: int, ghost log: seq<Append>)
      requires Valid() && disk.Valid() && IndexOk(GrowthOf(disk)) && OffMap(disk.Data(), mapFile)
      modifies Repr(), disk, disk.direct, disk.indirect
      ensures Valid() && disk.Valid() && n == disk.length && OffMap(disk.Data(), mapFile)
      ensures Extended(old(GrowthOf(disk)), GrowthOf(disk), length, log)
      ensures GrowsTo(old(disk.length), length, old(Stock()), disk.length)
      ensures Spent(old(Blocks(disk.Data())), old(Stock()), Blocks(disk.Data()), Stock())
    {
      hide Valid, Vol, Spare, Appended, CanAppend, AppendFailed, NeedsIndex, IndexOk, OffMap;
      hide Spent, StopsAt, GrowsTo, Blocks;
      ghost var was, stock := disk.Data(), Stock();
      Unspent(Blocks(was), stock);
      RoundedOk(GrowthOf(disk), mapFile);
      log := [];
      if disk.length >= length {
        NoGrowth(was.length, length, stock);
        return disk.length, log;
      }
      disk.length := RoundUp(disk.length, SECTOR_SIZE);
      log := AppendLoop(disk, length);
      GrownSoFar(was, length, stock, disk.Data(), Stock());
      if disk.length > length {
        CutOffMap(disk.Data(), length, mapFile);
        disk.length := length;
      }
      return disk.length, log;
    }

    /** The loop of extend_disk. */
    method AppendLoop(disk: DiskInode, length: int) returns (ghost log: seq<Append>)
      requires Valid() && disk.Valid() && IndexOk(GrowthOf(disk)) && disk.length % SECTOR_SIZE == 0
      requires OffMap(disk.Data(), mapFile)
      modifies Repr(), disk, disk.direct, disk.indirect
      ensures Valid() && disk.Valid() && OffMap(disk.Data(), mapFile)
      ensures CanAppendAll(old(GrowthOf(disk)), log)
      ensures LoopDone(AppendedAll(old(GrowthOf(disk)), log), GrowthOf(disk), length)
      ensures log != [] ==> disk.length - SECTOR_SIZE < length
      ensures Spent(old(Blocks(disk.Data())), old(Stock()), Blocks(disk.Data()), Stock())
      ensures disk.length < length ==> StopsAt(old(Blocks(disk.Data())), Blocks(disk.Data()), old(Stock()))
    {
      hide Valid, Vol, Spare, Appended, CanAppend, AppendFailed, OffMap, NeedsIndex, Need, Spent, StopsAt;
      ghost var r := GrowthOf(disk);
      ghost var n, stock := Blocks(disk.Data()), Stock();
      Unspent(n, stock);
      log := [];
      while disk.length < length
        invariant Valid() && disk.Valid() && InLoop(r, log, GrowthOf(disk), length) && OffMap(disk.Data(), mapFile)
        invariant Spent(n, stock, Blocks(disk.Data()), Stock())
        decreases MAX_INODE_LEN - disk.length
      {
        ghost var e := GrowthOf(disk);
        var more;
        ghost var a;
        SpentMore(n, stock, Blocks(disk.Data()), Stock());
        more, a := AppendSector(disk);
        if !more {
          AppendFailedLength(e, GrowthOf(disk));
          FailedOffMap(e, GrowthOf(disk), mapFile);
          return;
        }
        LogGrows(r, log, e, a, GrowthOf(disk), length);
        AppendedOffMap(e, a, mapFile);
        log := log + [a];
      }
    }

    /** The loop by which inode_create and inode_close give back every data sector, once, and no index sector. */
    method ReleaseBlocks(disk: DiskInode)
      requires Valid() && disk.Valid() && Mapped(disk.Data(), Vol()) && OffFile(disk.Data(), Vol().view, mapFile)
      modifies Repr()
      ensures Valid() && Vol().view == old(Vol()).view && disk.Data() == old(disk.Data())
      ensures |Vol().used| == old(|Vol().used|)
      ensures forall s :: 0 <= s < |Vol().used| ==>
                (Vol().used[s] <==> old(Vol()).used[s] && !OwnsSector(disk.Data(), Vol().view, s))
    {
      hide Valid, Vol;
      ghost var d, vol := disk.Data(), Vol();
      var ofs := 0;
      while ofs < disk.length
        invariant Valid() && Vol().view == vol.view && disk.Data() == d
        invariant ofs % SECTOR_SIZE == 0 && ofs / SECTOR_SIZE <= Blocks(d) && |Vol().used| == |vol.used|
        invariant forall s :: 0 <= s < |vol.used| ==>
                    (Vol().used[s] <==> vol.used[s] && !OwnedBelow(d, vol.view, ofs / SECTOR_SIZE, s))
      {
        var b := ofs / SECTOR_SIZE;
        var s := ByteToSectorDisk(disk, ofs);
        EntryInVol(d, b);
        assert s == Entry(d, vol.view, b);
        assert !OwnedBelow(d, vol.view, b, s);
        FreeMapRelease(s);
        ofs := ofs + SECTOR_SIZE;
        forall t { OwnedNext(d, vol.view, b, t); }
      }
      forall s ensures OwnsSector(d, vol.view, s) <==> OwnedBelow(d, vol.view, Blocks(d), s) {
      }
    }

    /**
     inode_create. The caller has allocated the inode's own sector. Parameter memory says whether calloc
     succeeded; ghost results are the inode that was written and the sectors appended. A failure gives
     back the data sectors, but not the index sectors.
     */
    method InodeCreate(sector: uint32, length: int, memory: bool) returns (ok: bool, ghost d: InodeData, ghost log: seq<Append>)
      requires Valid() && sector < |Vol().used| && Vol().used[sector] && Vol().used[FREE_MAP_SECTOR]
      requires sector !in mapFile && FREE_MAP_SECTOR !in mapFile
      requires IndexOk(Growth(EmptyInode(), Vol())) && StaysTrue(Growth(EmptyInode(), Vol()), length)
      modifies Repr()
      ensures Valid()
      ensures ok ==> CreatedAt(old(Vol()), Vol(), sector, length, d, log)
      ensures !ok ==> IndexLeft(old(Vol()), Vol(), log)
      ensures ok && length <= DIRECT_BYTES ==> Created(old(Vol()), Vol(), sector, length, d)
      ensures !ok && length <= DIRECT_BYTES ==> CreateFailed(old(Vol()), Vol())
      ensures ok <==> memory && (length <= 0 || HasRoom(0, length, old(Stock())))
    {
      hide Valid, Vol, Spare, Mapped, OffFile, GrownTo, NewAre, Extended, IndexOk, StaysTrue, Created, CreateFailed;
      hide GrowsTo, HasRoom;
      ghost var g, stock := Growth(EmptyInode(), Vol()), Stock();
      d, log := EmptyInode(), [];
      if !memory {
        NothingLeft(g.vol);
        return false, d, log;
      }
      var diskInode;
      diskInode, log := GrowEmpty(length);
      GrowthIsDetermined(0, length, stock, diskInode.length, diskInode.length);
      ghost var h := GrowthOf(diskInode);
      if diskInode.length < length {
        ReleaseBlocks(diskInode);
        OnlyIndexLeft(g, h, length, log, Vol().used);
        if length <= DIRECT_BYTES {
          NoneLeft(g, h, length, log, Vol().used);
        }
        return false, d, log;
      }
      d := diskInode.Data();
      CreatedAll(g, h, length, log);
      var data := InodeData(diskInode.length, diskInode.direct[..], diskInode.indirect[..]);
      Put(sector, EncodeInode(data), 0);
      assert Splice(h.vol.view[sector], 0, EncodeInode(d)) == EncodeInode(d);
      if length <= DIRECT_BYTES {
        CreatedDirect(g.vol, Vol(), sector, length, d, log);
      }
      return true, d, log;
    }

    /** The new inode, extended as far as possible. */
    method GrowEmpty(length: int) returns (disk: DiskInode, ghost log: seq<Append>)
      requires Valid() && FREE_MAP_SECTOR !in mapFile
      requires IndexOk(Growth(EmptyInode(), Vol())) && StaysTrue(Growth(EmptyInode(), Vol()), length)
      modifies Repr()
      ensures fresh(disk) && fresh(disk.direct) && fresh(disk.indirect) && Valid() && disk.Valid()
      ensures Extended(Growth(EmptyInode(), old(Vol())), GrowthOf(disk), length, log)
      ensures GrownTo(Growth(EmptyInode(), old(Vol())), GrowthOf(disk))
      ensures NewAre(Growth(EmptyInode(), old(Vol())), GrowthOf(disk), log)
      ensures Mapped(disk.Data(), Vol()) && OffFile(disk.Data(), Vol().view, mapFile)
      ensures disk.length <= Max(0, length) && |Vol().used| == |old(Vol()).used| && Readable(disk.Data(), Vol().view)
      ensures GrowsTo(0, length, old(Stock()), disk.length)
    {
      hide Valid, Vol, Spare, Extended, GrownTo, NewAre, StaysTrue, Tame, GrowsTo, Spent;
      disk := new DiskInode.Empty();
      ghost var g := GrowthOf(disk);
      assert g == Growth(EmptyInode(), Vol());
      var n;
      n, log := ExtendDisk(disk, length);
      ghost var h := GrowthOf(disk);
      ExtendedLength(g, h, length, log);
      EmptyIsSound(g);
      StaysTame(g, h, length, log);
      ExtendedGrows(g, h, length, log);
      GrownOffFile(g, h, mapFile);
      GrownIsSound(g, h);
    }

    /** free_map_create; where ok is false the code panics. Afterwards the file says which sectors are used, its own blocks included. */
    method FreeMapCreate(memory: bool) returns (ok: bool)
      requires Valid() && mapFile == [] && mapWritable && BitmapSize(|Vol().used|) <= DIRECT_BYTES
      requires IndexOk(Growth(EmptyInode(), Vol()))
      modifies this, Repr()
      ensures ok ==> Valid() && mapFile != [] && MapCurrent(mapFile, Vol().used, cache.View())
      ensures ok ==> DecodeInode(cache.View()[FREE_MAP_SECTOR]).length == BitmapSize(|Vol().used|)
      ensures ok ==> mapFile == DecodeInode(cache.View()[FREE_MAP_SECTOR]).direct[..|mapFile|] && FREE_MAP_SECTOR !in mapFile
      ensures ok ==> forall s :: 0 <= s < |Vol().used| ==> (Vol().used[s] <==> old(Vol()).used[s] || s in mapFile)
      ensures ok ==> |Vol().used| == old(|Vol().used|) && forall s :: s in mapFile ==> !old(Vol()).used[s]
      ensures ok <==> memory && DivRoundUp(BitmapSize(old(|Vol().used|)), SECTOR_SIZE) <= old(Stock()).spare
    {
      hide Valid, Vol, Spare, Created, MapOk, BitmapSize, EncodeInode, DecodeInode, MapCurrent, Blocks;
      hide HasRoom, CreatedAt, IndexLeft, CreateFailed, StaysTrue, DivRoundUp;
      ghost var vol := Vol();
      DirectRoom(BitmapSize(|vol.used|), Stock());
      ghost var d, log;
      DirectStaysTrue(Growth(EmptyInode(), vol), BitmapSize(|vol.used|));
      ok, d, log := InodeCreate(FREE_MAP_SECTOR, BitmapSize(freeMap.bits.Length), memory);
      if ok {
        MapCreated(vol, Vol(), d);
        OpenMap(d);
      }
    }

    /** The second half of free_map_create: opens the file just created and writes the bitmap to it. */
    method OpenMap(ghost d: InodeData)
      requires Valid() && mapFile == [] && mapWritable && 0 < |Vol().view|
      requires WfInode(d) && Blocks(d) <= NUM_DIRECT && Vol().view[FREE_MAP_SECTOR] == EncodeInode(d)
      requires MapOk(d.direct[..Blocks(d)], Vol().used)
      modifies this, cache, cache.entries
      ensures mapFile == d.direct[..Blocks(d)] && Valid() && Vol().used == old(Vol()).used
      ensures MapCurrent(mapFile, Vol().used, cache.View())
      ensures FREE_MAP_SECTOR !in mapFile ==> DecodeInode(cache.View()[FREE_MAP_SECTOR]) == d
    {
      hide MapOk, BitmapSize, MapCurrent, EncodeInode, DecodeInode;
      DecodeEncode(d);
      var bytes := Get(FREE_MAP_SECTOR, SECTOR_SIZE, 0);
      assert bytes == EncodeInode(d);
      var data := DecodeInode(bytes);
      mapFile := data.direct[..Blocks(data)];
      ghost var view := cache.View();
      SaveMap();
      assert FREE_MAP_SECTOR !in mapFile ==> Masked(cache.View(), mapFile)[FREE_MAP_SECTOR] == Masked(view, mapFile)[FREE_MAP_SECTOR];
    }

    /** inode_read_at, over the block map as it reads back, whatever the file's length. */
    method InodeReadAt(inode: Inode, buffer: array<byte>, size: int, offset: nat) returns (bytesRead: nat)
      requires Valid() && inode.data.Valid() && Readable(inode.data.Data(), cache.View())
      requires size <= buffer.Length
      modifies Repr(), buffer
      ensures Valid() && GrowthOf(inode.data) == old(GrowthOf(inode.data)) && cache.View() == old(cache.View())
      ensures bytesRead == Max(0, Min(size, inode.data.length - offset))
      ensures buffer[..bytesRead] == ContentRange(inode.data.Data(), cache.View(), offset, bytesRead)
      ensures buffer[bytesRead..] == old(buffer[..])[bytesRead..]
    {
      hide Valid, Vol, ByteAt, Readable;
      ghost var g, view, was := GrowthOf(inode.data), cache.View(), buffer[..];
      bytesRead := 0;
      var left, pos := size, offset;
      while left > 0 && pos < inode.data.length
        invariant Valid() && GrowthOf(inode.data) == g && cache.View() == view
        invariant pos == offset + bytesRead && left == size - bytesRead
        invariant 0 <= bytesRead <= Max(0, Min(size, g.d.length - offset))
        invariant forall i :: 0 <= i < bytesRead ==> buffer[i] == ByteAt(g.d, view, offset + i)
        invariant forall i :: bytesRead <= i < buffer.Length ==> buffer[i] == was[i]
      {
        var k := ReadChunk(inode.data, buffer, bytesRead, pos, left);
        left := left - k;
        pos := pos + k;
        bytesRead := bytesRead + k;
      }
    }

    /** One round of inode_read_at's loop: copies from the sector that holds byte pos. */
    method ReadChunk(disk: DiskInode, buffer: array<byte>, at: nat, pos: nat, left: nat) returns (chunkSize: nat)
      requires Valid() && disk.Valid() && Readable(disk.Data(), cache.View())
      requires pos < disk.length && left > 0 && at + left <= buffer.Length
      modifies Repr(), buffer
      ensures Valid() && GrowthOf(disk) == old(GrowthOf(disk)) && cache.View() == old(cache.View())
      ensures 0 < chunkSize <= left && pos + chunkSize <= disk.length
      ensures forall i :: at <= i < at + chunkSize ==> buffer[i] == ByteAt(disk.Data(), cache.View(), pos + i - at)
      ensures forall i :: 0 <= i < buffer.Length && !(at <= i < at + chunkSize) ==> buffer[i] == old(buffer[i])
    {
      hide Valid, Vol;
      var sectorIdx := ByteToSectorDisk(disk, pos);
      var sectorOfs := pos % SECTOR_SIZE;
      var inodeLeft := disk.length - pos;
      var sectorLeft := SECTOR_SIZE - sectorOfs;
      var minLeft := if inodeLeft < sectorLeft then inodeLeft else sectorLeft;
      chunkSize := if left < minLeft then left else minLeft;
      var chunk := Get(sectorIdx, chunkSize, sectorOfs);
      ChunkBytes(disk.Data(), cache.View(), pos, chunk);
      MemCopy(buffer, at, chunk);
    }

    /**
     inode_write_at. Ghost results: the sectors appended, and the state between growing the file and
     storing the data.
     */
    method InodeWriteAt(inode: Inode, buffer: seq<byte>, offset: nat)
      returns (bytesWritten: nat, ghost mid: Growth, ghost log: seq<Append>)
      requires Valid() && inode.data.Valid() && Sound(GrowthOf(inode.data))
      requires StaysTrue(GrowthOf(inode.data), offset + |buffer|) && OffFile(inode.data.Data(), Vol().view, mapFile)
      modifies Repr(), inode.data, inode.data.direct, inode.data.indirect
      ensures Valid() && inode.data.Valid()
      ensures inode.denyWriteCnt != 0 ==> bytesWritten == 0 && GrowthOf(inode.data) == old(GrowthOf(inode.data))
      ensures inode.denyWriteCnt == 0 ==>
                WriteOutcome(old(GrowthOf(inode.data)), mid, GrowthOf(inode.data), offset, buffer, log, bytesWritten)
      ensures inode.denyWriteCnt == 0 ==> Refined(old(GrowthOf(inode.data)), GrowthOf(inode.data), offset, buffer[..bytesWritten])
      ensures inode.denyWriteCnt == 0 ==> GrowsTo(old(inode.data.length), offset + |buffer|, old(Stock()), inode.data.length)
      ensures inode.denyWriteCnt == 0 ==> bytesWritten == Max(0, Min(|buffer|, inode.data.length - offset))
      ensures inode.denyWriteCnt == 0 ==> ReadsBack(inode.data.Data(), Vol().view, offset, buffer[..bytesWritten])
      ensures bytesWritten == |buffer| <==>
                buffer == [] || (inode.denyWriteCnt == 0 && (offset + |buffer| <= old(inode.data.length)
                                   || HasRoom(old(inode.data.length), offset + |buffer|, old(Stock()))))
    {
      hide Valid, Vol, Spare, Mapped, IndexOk, Extended, Stored, Tame, StaysTrue, CleanTail, GrowsTo, HasRoom;
      ghost var was, stock := inode.data.length, Stock();
      mid, log, bytesWritten := GrowthOf(inode.data), [], 0;
      if inode.denyWriteCnt != 0 {
        return;
      }
      ghost var g := GrowthOf(inode.data);
      bytesWritten, mid, log := ExtendAndStore(inode.data, buffer, offset);
      GrowthIsDetermined(was, offset + |buffer|, stock, inode.data.length, inode.data.length);
      SoundReads(g);
      if CleanTail(g.d, g.vol.view) {
        TameWriteRefines(g, mid, GrowthOf(inode.data), offset, buffer, log, bytesWritten);
        SoundReads(GrowthOf(inode.data));
      }
    }

    method ExtendAndStore(disk: DiskInode, buffer: seq<byte>, offset: nat)
      returns (bytesWritten: nat, ghost mid: Growth, ghost log: seq<Append>)
      requires Valid() && disk.Valid() && Sound(GrowthOf(disk))
      requires StaysTrue(GrowthOf(disk), offset + |buffer|) && OffFile(disk.Data(), Vol().view, mapFile)
      modifies Repr(), disk, disk.direct, disk.indirect
      ensures Valid() && disk.Valid() && bytesWritten <= |buffer| && Tame(old(GrowthOf(disk)), log)
      ensures WriteOutcome(old(GrowthOf(disk)), mid, GrowthOf(disk), offset, buffer, log, bytesWritten)
      ensures GrowsTo(old(disk.length), offset + |buffer|, old(Stock()), disk.length)
      ensures bytesWritten == Max(0, Min(|buffer|, disk.length - offset))
      ensures ReadsBack(disk.Data(), Vol().view, offset, buffer[..bytesWritten])
    {
      hide Valid, Vol, Spare, Extended, Stored, Mapped, GrownTo, Tame, StaysTrue, IndexOk, NewAre, GrowsTo, Spent;
      ghost var g := GrowthOf(disk);
      SoundReads(g);
      var n;
      n, log := ExtendDisk(disk, offset + |buffer|);
      mid := GrowthOf(disk);
      StaysTame(g, mid, offset + |buffer|, log);
      ExtendedGrows(g, mid, offset + |buffer|, log);
      GrownIsSound(g, mid);
      GrownOffFile(g, mid, mapFile);
      bytesWritten := WriteLoop(disk, buffer, offset);
      StoredReadsBack(disk.Data(), mid.vol.view, Vol().view, offset, buffer[..bytesWritten]);
    }

    /** The loop of inode_write_at: stores what fits within the file's length. */
    method WriteLoop(disk: DiskInode, buffer: seq<byte>, offset: nat) returns (bytesWritten: nat)
      requires Valid() && disk.Valid() && Mapped(disk.Data(), Vol()) && OffFile(disk.Data(), Vol().view, mapFile)
      modifies Repr()
      ensures Valid() && Vol().used == old(Vol()).used && disk.Data() == old(disk.Data())
      ensures bytesWritten == Max(0, Min(|buffer|, disk.length - offset))
      ensures Stored(disk.Data(), old(Vol()).view, Vol().view, offset, buffer[..bytesWritten])
    {
      hide Valid, Vol;
      ghost var d, vol := disk.Data(), Vol();
      bytesWritten := 0;
      var left, pos := |buffer|, offset;
      while left > 0 && pos < disk.length
        invariant Valid() && disk.Data() == d && Vol().used == vol.used
        invariant pos == offset + bytesWritten && left == |buffer| - bytesWritten
        invariant 0 <= bytesWritten <= Max(0, Min(|buffer|, d.length - offset))
        invariant Stored(d, vol.view, Vol().view, offset, buffer[..bytesWritten])
      {
        var k := WriteRound(disk, vol, buffer, offset, bytesWritten);
        left := left - k;
        pos := pos + k;
        bytesWritten := bytesWritten + k;
      }
    }

    /** One round of that loop, after n bytes. */
    method WriteRound(disk: DiskInode, ghost vol: Volume, buffer: seq<byte>, offset: nat, n: nat) returns (k: nat)
      requires Valid() && disk.Valid() && Mapped(disk.Data(), vol) && OffFile(disk.Data(), vol.view, mapFile)
      requires Vol().used == vol.used && |Vol().view| == |vol.view|
      requires n < |buffer| && offset + n < disk.length
      requires Stored(disk.Data(), vol.view, Vol().view, offset, buffer[..n])
      modifies Repr()
      ensures Valid() && Vol().used == vol.used && disk.Data() == old(disk.Data())
      ensures 0 < k <= |buffer| - n && offset + n + k <= disk.length
      ensures Stored(disk.Data(), vol.view, Vol().view, offset, buffer[..n + k])
    {
      hide Valid, Vol;
      ghost var before := Vol().view;
      StoredMapped(disk.Data(), vol, before, offset, buffer[..n], mapFile);
      k := WriteChunk(disk, buffer[n..], offset + n);
      StoredMore(disk.Data(), vol, before, Vol().view, offset, buffer, n, k);
    }

    /** The write of that round. */
    method WriteChunk(disk: DiskInode, rest: seq<byte>, pos: nat) returns (chunkSize: nat)
      requires Valid() && disk.Valid() && Mapped(disk.Data(), Vol()) && OffFile(disk.Data(), Vol().view, mapFile)
      requires pos < disk.length && rest != []
      modifies Repr()
      ensures Valid() && Vol().used == old(Vol()).used && disk.Data() == old(disk.Data())
      ensures 0 < chunkSize <= |rest| && pos + chunkSize <= disk.length
      ensures ChunkStored(disk.Data(), old(Vol()).view, Vol().view, pos, rest[..chunkSize])
    {
      hide Valid, Vol;
      var sectorIdx := ByteToSectorDisk(disk, pos);
      var sectorOfs := pos % SECTOR_SIZE;
      var inodeLeft := disk.length - pos;
      var sectorLeft := SECTOR_SIZE - sectorOfs;
      var minLeft := if inodeLeft < sectorLeft then inodeLeft else sectorLeft;
      chunkSize := if |rest| < minLeft then |rest| else minLeft;
      EntryInVol(disk.Data(), pos / SECTOR_SIZE);
      Put(sectorIdx, rest[..chunkSize], sectorOfs);
    }
  }

  method MemCopy(buffer: array<byte>, at: nat, data: seq<byte>)
    requires at + |data| <= buffer.Length
    modifies buffer
    ensures forall i :: 0 <= i < buffer.Length ==>
              buffer[i] == if at <= i < at + |data| then data[i - at] else old(buffer[i])
  {
    forall i | 0 <= i < |data| {
      buffer[at + i] := data[i];
    }
  }

  /** The free map's file does not show through: a file off the map reads the same with and without its blocks. */
  lemma MaskedContent(d: InodeData, view: seq<Sector>, blocks: seq<uint16>)
    requires Readable(d, view) && Blocks(d) <= NUM_DIRECT && OffMap(d, blocks)
    ensures Readable(d, Masked(view, blocks)) && Content(d, Masked(view, blocks)) == Content(d, view)
  {
    assert forall p :: 0 <= p < d.length ==> ByteAt(d, Masked(view, blocks), p) == ByteAt(d, view, p);
  }

  ghost function ContentRange(d: InodeData, view: seq<Sector>, offset: nat, n: nat): (r: seq<byte>)
    requires Readable(d, view) && (n > 0 ==> offset + n <= d.length)
    ensures |r| == n
  {
    if n == 0 then [] else Content(d, view)[offset..offset + n]
  }

  /** A later read of that range gives the data. */
  ghost predicate ReadsBack(d: InodeData, view: seq<Sector>, offset: nat, data: seq<byte>) {
    Readable(d, view) && (data != [] ==> offset + |data| <= d.length && ContentRange(d, view, offset, |data|) == data)
  }

  lemma StoredReadsBack(d: InodeData, view: seq<Sector>, view': seq<Sector>, offset: nat, data: seq<byte>)
    requires Stored(d, view, view', offset, data) && (data != [] ==> offset + |data| <= d.length)
    ensures ReadsBack(d, view', offset, data)
  {
    if data != [] {
      var c := ContentRange(d, view', offset, |data|);
      forall i | 0 <= i < |data| ensures c[i] == data[i] {
        assert c[i] == Content(d, view')[offset + i] == ByteAt(d, view', offset + i);
      }
    }
  }

  /** On a file whose tail is clean, the write is an assignment to the file's byte sequence; file and tail stay sound and clean. */
  ghost predicate Refined(g: Growth, g': Growth, offset: nat, data: seq<byte>) {
    && Readable(g.d, g.vol.view)
    && (CleanTail(g.d, g.vol.view) ==>
          && Sound(g') && Readable(g'.d, g'.vol.view) && CleanTail(g'.d, g'.vol.view)
          && g.d.length <= g'.d.length && (data != [] ==> offset + |data| <= g'.d.length)
          && Content(g'.d, g'.vol.view) == Written(Content(g.d, g.vol.view), g'.d.length, offset, data))
  }

  /** One cache_write into the sector that holds byte pos. */
  ghost predicate ChunkStored(d: InodeData, view: seq<Sector>, view': seq<Sector>, pos: nat, chunk: seq<byte>) {
    && Readable(d, view) && pos + |chunk| <= d.length && pos % SECTOR_SIZE + |chunk| <= SECTOR_SIZE && chunk != []
    && var s := Entry(d, view, pos / SECTOR_SIZE);
       view' == view[s := Splice(view[s], pos % SECTOR_SIZE, chunk)]
  }

  lemma RoundedOk(g: Growth, blocks: seq<uint16>)
    requires IndexOk(g) && OffMap(g.d, blocks)
    ensures WfGrowth(g) && IndexOk(Rounded(g)) && OffMap(Rounded(g).d, blocks) && Blocks(Rounded(g).d) == Blocks(g.d)
  {
  }

  /** Cutting a file within its last sector. */
  lemma CutOffMap(d: InodeData, length: int, blocks: seq<uint16>)
    requires WfInode(d) && OffMap(d, blocks) && d.length % SECTOR_SIZE == 0
    requires 0 <= length && d.length - SECTOR_SIZE < length < d.length
    ensures OffMap(d.(length := length), blocks) && Blocks(d.(length := length)) == Blocks(d)
  {
  }

  /** While data is stored the file keeps its map, so it can be stored into further. */
  lemma StoredMapped(d: InodeData, vol: Volume, view: seq<Sector>, offset: nat, data: seq<byte>, blocks: seq<uint16>)
    requires Mapped(d, vol) && OffFile(d, vol.view, blocks) && Stored(d, vol.view, view, offset, data)
    ensures Mapped(d, Volume(vol.used, view)) && OffFile(d, view, blocks)
  {
    forall b | 0 <= b < Blocks(d) ensures Entry(d, view, b) == Entry(d, vol.view, b) {
      StoredEntries(d, vol, view, b);
    }
  }

  /** Neither what is stored so far nor the next chunk changes the block map. */
  lemma StoredKeepsEntries(d: InodeData, vol: Volume, view: seq<Sector>, view': seq<Sector>, offset: nat, data: seq<byte>, at: nat, chunk: seq<byte>)
    requires Mapped(d, vol) && Stored(d, vol.view, view, offset, data) && ChunkStored(d, view, view', at, chunk)
    ensures Readable(d, view')
    ensures forall c :: 0 <= c < Blocks(d) ==> Entry(d, view, c) == Entry(d, vol.view, c) == Entry(d, view', c)
    ensures forall s :: 0 <= s < |vol.view| && !OwnsSector(d, vol.view, s) ==> view'[s] == vol.view[s]
  {
    forall c | 0 <= c < Blocks(d) ensures Entry(d, view, c) == Entry(d, vol.view, c) {
      StoredEntries(d, vol, view, c);
    }
    assert OwnsSector(d, vol.view, Entry(d, vol.view, at / SECTOR_SIZE));
    forall c | 0 <= c < Blocks(d)
      ensures (c >= NUM_DIRECT ==> d.indirect[Group(c)] < |view'|) && Entry(d, view', c) == Entry(d, vol.view, c)
    {
      StoredEntries(d, vol, view', c);
    }
  }

  /** Storing the next chunk extends the stored range; injectivity keeps it off the file's other sectors. */
  lemma StoredMore(d: InodeData, vol: Volume, view: seq<Sector>, view': seq<Sector>, offset: nat, buffer: seq<byte>, n: nat, k: nat)
    requires Mapped(d, vol)
    requires n + k <= |buffer| && Stored(d, vol.view, view, offset, buffer[..n])
    requires ChunkStored(d, view, view', offset + n, buffer[n..][..k])
    ensures Stored(d, vol.view, view', offset, buffer[..n + k])
  {
    var chunk := buffer[n..][..k];
    StoredKeepsEntries(d, vol, view, view', offset, buffer[..n], offset + n, chunk);
    forall p | 0 <= p < Blocks(d) * SECTOR_SIZE
      ensures ByteAt(d, view', p) ==
              if offset <= p < offset + n + k then buffer[p - offset] else ByteAt(d, vol.view, p)
    {
      StoredByteMore(d, vol, view, view', offset, buffer, n, k, p);
    }
  }

  lemma StoredByteMore(d: InodeData, vol: Volume, view: seq<Sector>, view': seq<Sector>, offset: nat, buffer: seq<byte>,
                       n: nat, k: nat, p: nat)
    requires Mapped(d, vol) && Readable(d, view') && p < Blocks(d) * SECTOR_SIZE
    requires n + k <= |buffer| && Stored(d, vol.view, view, offset, buffer[..n])
    requires ChunkStored(d, view, view', offset + n, buffer[n..][..k])
    requires forall c :: 0 <= c < Blocks(d) ==> Entry(d, view, c) == Entry(d, vol.view, c) == Entry(d, view', c)
    ensures ByteAt(d, view', p) == if offset <= p < offset + n + k then buffer[p - offset] else ByteAt(d, vol.view, p)
  {
    var b, o := (offset + n) / SECTOR_SIZE, (offset + n) % SECTOR_SIZE;
    ChunkByte(d, vol, view, view', offset + n, buffer[n..][..k], p);
    if p / SECTOR_SIZE == b {
      assert p - (offset + n) == p % SECTOR_SIZE - o;
    } else {
      assert !(offset + n <= p < offset + n + k);
    }
  }

  /** The chunk changes the bytes at its place and no others. */
  lemma ChunkByte(d: InodeData, vol: Volume, view: seq<Sector>, view': seq<Sector>, at: nat, chunk: seq<byte>, p: nat)
    requires Mapped(d, vol) && Readable(d, view) && Readable(d, view') && p < Blocks(d) * SECTOR_SIZE
    requires forall c :: 0 <= c < Blocks(d) ==> Entry(d, view, c) == Entry(d, vol.view, c) == Entry(d, view', c)
    requires ChunkStored(d, view, view', at, chunk)
    ensures ByteAt(d, view', p) ==
            var o := at % SECTOR_SIZE;
            if p / SECTOR_SIZE == at / SECTOR_SIZE && o <= p % SECTOR_SIZE < o + |chunk| then chunk[p % SECTOR_SIZE - o]
            else ByteAt(d, view, p)
  {
  }

  lemma SoundReads(g: Growth)
    requires Sound(g)
    ensures Readable(g.d, g.vol.view)
    ensures g.d.length <= DIRECT_BYTES ==> DirectInode(g.d, g.vol.used)
  {
    if g.d.length <= DIRECT_BYTES {
      DirectIsMapped(g.d, g.vol);
    }
  }

  lemma EmptyIsSound(g: Growth)
    requires g.d == EmptyInode() && IndexOk(g)
    ensures Sound(g) && Blocks(g.d) == 0
  {
  }

  /** New blocks were unused, so they are off the free map's file. */
  lemma GrownOffFile(g: Growth, r: Growth, blocks: seq<uint16>)
    requires GrownTo(g, r) && MapOk(blocks, g.vol.used) && Readable(g.d, g.vol.view) && OffFile(g.d, g.vol.view, blocks)
    requires OffMap(r.d, blocks)
    ensures Readable(r.d, r.vol.view) && OffFile(r.d, r.vol.view, blocks)
  {
    forall b | 0 <= b < Blocks(r.d) ensures Entry(r.d, r.vol.view, b) !in blocks {
      if b < Blocks(g.d) {
        assert Entry(r.d, r.vol.view, b) == Entry(g.d, g.vol.view, b);
      }
    }
  }

  /** A successful inode_create: the empty inode extended, and then the inode itself in its sector. */
  ghost predicate CreatedAt(vol: Volume, vol': Volume, sector: nat, length: int, d: InodeData, log: seq<Append>) {
    && WfVolume(vol) && WfInode(d) && sector < |vol.view| && d.length == Max(0, length)
    && exists mid: Volume :: Extended(Growth(EmptyInode(), vol), Growth(d, mid), length, log)
         && |mid.view| == |vol.view| && vol' == Volume(mid.used, mid.view[sector := EncodeInode(d)])
  }

  /** A failed inode_create leaves the index sectors it took marked, and every marked sector but number 0 as it was. */
  ghost predicate IndexLeft(vol: Volume, vol': Volume, log: seq<Append>) {
    && WfVolume(vol) && WfVolume(vol') && |vol'.used| == |vol.used|
    && (forall s :: 0 <= s < |vol.used| ==> (vol'.used[s] <==> vol.used[s] || IndexIn(log, s)))
    && (forall s :: 0 <= s < |vol.used| && vol.used[s] && s != FREE_MAP_SECTOR ==> vol'.view[s] == vol.view[s])
  }

  ghost predicate IndexIn(log: seq<Append>, s: int) {
    exists i :: 0 <= i < |log| && log[i].index.Some? && log[i].index.value == s
  }

  /** A successful inode_create: fresh zeroed blocks, and the inode itself in its sector. */
  ghost predicate Created(vol: Volume, vol': Volume, sector: nat, length: int, d: InodeData) {
    && WfVolume(vol) && WfInode(d) && sector < |vol.view|
    && d.length == Max(0, length)
    && exists mid: Volume :: FreshlyGrown(EmptyInode(), vol, d, mid)
         && vol' == Volume(mid.used, mid.view[sector := EncodeInode(d)])
  }

  /** A failed inode_create gives back all it took; only sectors that are unused may have changed. */
  ghost predicate CreateFailed(vol: Volume, vol': Volume) {
    && WfVolume(vol) && WfVolume(vol') && vol'.used == vol.used
    && forall s :: 0 <= s < |vol.used| && vol.used[s] ==> vol'.view[s] == vol.view[s]
  }

  /** A file created in the free map's own sector can hold the bitmap. */
  lemma MapCreated(vol: Volume, vol': Volume, d: InodeData)
    requires Created(vol, vol', FREE_MAP_SECTOR, BitmapSize(|vol.used|), d) && vol.used[FREE_MAP_SECTOR]
    ensures WfInode(d) && d.length == BitmapSize(|vol.used|)
    ensures Blocks(d) <= NUM_DIRECT && MapOk(d.direct[..Blocks(d)], vol'.used) && |vol'.used| == |vol.used|
    ensures vol'.view[FREE_MAP_SECTOR] == EncodeInode(d) && d.direct[..Blocks(d)] != []
    ensures forall s :: s in d.direct[..Blocks(d)] ==> 0 <= s < |vol.used| && !vol.used[s]
    ensures forall s :: 0 <= s < |vol.used| ==> (vol'.used[s] <==> vol.used[s] || s in d.direct[..Blocks(d)])
  {
    var mid: Volume :| FreshlyGrown(EmptyInode(), vol, d, mid)
                       && vol' == Volume(mid.used, mid.view[FREE_MAP_SECTOR := EncodeInode(d)]);
    var blocks := d.direct[..Blocks(d)];
    forall s | 0 <= s < |vol.used| ensures NewBlock(EmptyInode(), d, s) <==> s in blocks {
      if s in blocks {
        var b :| 0 <= b < |blocks| && blocks[b] == s;
        assert d.direct[b] == s;
      }
    }
    forall b | 0 <= b < |blocks| ensures NewBlock(EmptyInode(), d, blocks[b]) {
    }
  }

  lemma NothingLeft(vol: Volume)
    requires WfVolume(vol)
    ensures IndexLeft(vol, vol, []) && CreateFailed(vol, vol)
  {
  }

  /** The two sectors of one append differ. */
  lemma {:induction false} IndexIsNotData(g: Growth, log: seq<Append>, i: nat)
    requires CanAppendAll(g, log) && i < |log|
    ensures log[i].index != Some(log[i].data)
    decreases |log|
  {
    if i < |log| - 1 {
      IndexIsNotData(g, log[..|log| - 1], i);
    } else {
      AppendedUsed(AppendedAll(g, log[..|log| - 1]), log[i]);
    }
  }

  /** No sector is taken both as index and as data. */
  lemma IndexOrData(g: Growth, log: seq<Append>, i: nat, j: nat)
    requires CanAppendAll(g, log) && i < |log| && j < |log|
    ensures log[i].index != Some(log[j].data)
  {
    if log[i].index == Some(log[j].data) {
      var s := log[j].data;
      assert TakenBy(log[i], s) && TakenBy(log[j], s);
      if i < j {
        GrownDistinct(g, log, i, j, s);
      } else if j < i {
        GrownDistinct(g, log, j, i, s);
      } else {
        IndexIsNotData(g, log, i);
      }
    }
  }

  /** Of the sectors growth took, exactly the index sectors are no blocks of the file. */
  lemma TakenButNotOwned(g: Growth, h: Growth, log: seq<Append>, s: int)
    requires CanAppendAll(g, log) && Blocks(g.d) == 0 && NewAre(g, h, log) && Readable(h.d, h.vol.view)
    ensures InLog(log, s) && !OwnsSector(h.d, h.vol.view, s) <==> IndexIn(log, s)
  {
    if IndexIn(log, s) {
      var i :| 0 <= i < |log| && log[i].index.Some? && log[i].index.value == s;
      assert TakenBy(log[i], s);
      if OwnsSector(h.d, h.vol.view, s) {
        var b :| 0 <= b < Blocks(h.d) && Entry(h.d, h.vol.view, b) == s;
        IndexOrData(g, log, i, b);
      }
    }
    if InLog(log, s) && !IndexIn(log, s) {
      var i :| 0 <= i < |log| && TakenBy(log[i], s);
      assert Entry(h.d, h.vol.view, i) == s;
    }
  }

  /** Every append of a log was possible when its turn came. */
  lemma {:induction false} AppendsInTurn(g: Growth, log: seq<Append>, i: nat)
    requires CanAppendAll(g, log) && i < |log|
    ensures CanAppendAll(g, log[..i]) && CanAppend(AppendedAll(g, log[..i]), log[i])
    ensures Blocks(AppendedAll(g, log[..i]).d) == Blocks(g.d) + i
    decreases |log|
  {
    if i < |log| - 1 {
      AppendsInTurn(g, log[..|log| - 1], i);
      assert log[..|log| - 1][..i] == log[..i];
    }
  }

  lemma IndexOfAppend(e: Growth, a: Append)
    requires CanAppend(e, a)
    ensures a.index.Some? <==> Blocks(e.d) > NUM_DIRECT && GroupOffset(Blocks(e.d)) == 0
  {
    NeedsIndexIff(e.d);
  }

  lemma IndexAt(g: Growth, log: seq<Append>, i: nat)
    requires 0 <= g.d.length && Blocks(g.d) == 0 && CanAppendAll(g, log) && i < |log|
    ensures log[i].index.Some? <==> i > NUM_DIRECT && GroupOffset(i) == 0
  {
    AppendsInTurn(g, log, i);
    var e := AppendedAll(g, log[..i]);
    assert Blocks(e.d) == i;
    hide CanAppend, CanAppendAll, AppendedAll, GroupOffset, Blocks;
    IndexOfAppend(e, log[i]);
  }

  lemma FirstGroupStart(i: nat)
    ensures i > NUM_DIRECT && GroupOffset(i) == 0 ==> i >= NUM_DIRECT + INDIRECT_LEN
    ensures GroupOffset(NUM_DIRECT + INDIRECT_LEN) == 0
  {
  }

  /** A new file takes an index sector exactly from its 445th sector on. */
  lemma TakesIndexIff(g: Growth, log: seq<Append>)
    requires g.d == EmptyInode() && CanAppendAll(g, log)
    ensures (forall i :: 0 <= i < |log| ==> log[i].index == None) <==> |log| <= NUM_DIRECT + INDIRECT_LEN
  {
    assert 0 <= g.d.length && Blocks(g.d) == 0;
    hide CanAppendAll, GroupOffset, EmptyInode, Blocks;
    forall i | 0 <= i < |log| && i < NUM_DIRECT + INDIRECT_LEN ensures log[i].index == None {
      IndexAt(g, log, i);
      FirstGroupStart(i);
    }
    if |log| > NUM_DIRECT + INDIRECT_LEN {
      IndexAt(g, log, NUM_DIRECT + INDIRECT_LEN);
      FirstGroupStart(NUM_DIRECT + INDIRECT_LEN);
      assert log[NUM_DIRECT + INDIRECT_LEN].index != None;
    }
  }

  /** A failed inode_create gives back everything it took exactly if it got no further than 444 sectors. */
  lemma CreateLeavesNothingIff(g: Growth, vol': Volume, log: seq<Append>)
    requires g.d == EmptyInode() && CanAppendAll(g, log) && IndexLeft(g.vol, vol', log)
    ensures vol'.used == g.vol.used <==> |log| <= NUM_DIRECT + INDIRECT_LEN
  {
    TakesIndexIff(g, log);
    GrownUsed(g, log);
    hide CanAppendAll, AppendedAll, EmptyInode, InLog;
    if |log| > NUM_DIRECT + INDIRECT_LEN {
      var i :| 0 <= i < |log| && log[i].index != None;
      LeftMarked(g, vol', log, i);
    } else {
      assert forall s :: !IndexIn(log, s);
      assert vol'.used == g.vol.used;
    }
  }

  lemma LeftMarked(g: Growth, vol': Volume, log: seq<Append>, i: nat)
    requires CanAppendAll(g, log) && IndexLeft(g.vol, vol', log) && i < |log| && log[i].index.Some?
    ensures log[i].index.value < |g.vol.used| && !g.vol.used[log[i].index.value] && vol'.used[log[i].index.value]
  {
    var x := log[i].index.value;
    GrownUsed(g, log);
    hide CanAppendAll, AppendedAll;
    assert TakenBy(log[i], x) && InLog(log, x) && IndexIn(log, x);
  }

  lemma OnlyIndexLeft(g: Growth, h: Growth, length: int, log: seq<Append>, used': seq<bool>)
    requires g.d == EmptyInode() && IndexOk(g) && Extended(g, h, length, log) && GrownTo(g, h) && NewAre(g, h, log)
    requires Readable(h.d, h.vol.view) && |used'| == |h.vol.used|
    requires forall s :: 0 <= s < |used'| ==> (used'[s] <==> h.vol.used[s] && !OwnsSector(h.d, h.vol.view, s))
    ensures IndexLeft(g.vol, Volume(used', h.vol.view), log)
  {
    GrownMarks(g, h, length, log);
    hide Extended, NewAre, GrownTo, IndexOk, InLog, CanAppendAll, Readable, EmptyInode;
    forall s | 0 <= s < |used'| ensures used'[s] <==> g.vol.used[s] || IndexIn(log, s) {
      MarkedOrIndex(g, h, length, log, s);
    }
    forall s | 0 <= s < |used'| && g.vol.used[s] && s != FREE_MAP_SECTOR ensures h.vol.view[s] == g.vol.view[s] {
      NotOldIndex(g, h, length, log, s);
    }
  }

  lemma NoneLeft(g: Growth, h: Growth, length: int, log: seq<Append>, used': seq<bool>)
    requires g.d == EmptyInode() && IndexOk(g) && Extended(g, h, length, log) && GrownTo(g, h) && length <= DIRECT_BYTES
    requires IndexLeft(g.vol, Volume(used', h.vol.view), log)
    ensures CreateFailed(g.vol, Volume(used', h.vol.view))
  {
    NoIndex(g, h, length, log);
    assert forall s :: !IndexIn(log, s);
    assert used' == g.vol.used;
  }

  /** The sectors of the log are what growth marked. */
  lemma GrownMarks(g: Growth, h: Growth, length: int, log: seq<Append>)
    requires g.d == EmptyInode() && Extended(g, h, length, log)
    ensures CanAppendAll(g, log) && WfGrowth(h) && |h.vol.used| == |g.vol.used|
    ensures forall s :: 0 <= s < |g.vol.used| ==> (h.vol.used[s] <==> g.vol.used[s] || InLog(log, s))
    ensures forall s :: InLog(log, s) ==> 0 <= s < |g.vol.used| && !g.vol.used[s]
  {
    ExtendedLength(g, h, length, log);
    assert Rounded(g) == g;
    GrownUsed(g, log);
    if g.d.length < length {
      var e := AppendedAll(g, log);
      if e.d.length < length {
        AppendFailedLength(e, h);
      }
    }
  }

  lemma MarkedOrIndex(g: Growth, h: Growth, length: int, log: seq<Append>, s: nat)
    requires g.d == EmptyInode() && Extended(g, h, length, log) && GrownTo(g, h) && NewAre(g, h, log)
    requires Readable(h.d, h.vol.view) && s < |h.vol.used| == |g.vol.used|
    ensures h.vol.used[s] && !OwnsSector(h.d, h.vol.view, s) <==> g.vol.used[s] || IndexIn(log, s)
  {
    GrownMarks(g, h, length, log);
    TakenButNotOwned(g, h, log, s);
    assert g.vol.used[s] ==> !OwnsSector(h.d, h.vol.view, s);
  }

  /** The index sectors of a new file were unused, but for the first. */
  lemma NotOldIndex(g: Growth, h: Growth, length: int, log: seq<Append>, s: nat)
    requires g.d == EmptyInode() && IndexOk(g) && Extended(g, h, length, log) && GrownTo(g, h)
    requires s < |g.vol.used| && g.vol.used[s] && s != FREE_MAP_SECTOR
    ensures WfGrowth(h) && h.vol.view[s] == g.vol.view[s]
  {
    GrownIsSound(g, h);
    if IndexSector(h.d, s) {
      var c :| NUM_DIRECT <= c < Blocks(h.d) && h.d.indirect[Group(c)] == s;
      SlotOfLog(g, h, length, log, c);
    }
  }

  lemma SlotOfLog(g: Growth, h: Growth, length: int, log: seq<Append>, c: nat)
    requires g.d == EmptyInode() && IndexOk(g) && Extended(g, h, length, log) && IndexOk(h)
    requires NUM_DIRECT <= c < Blocks(h.d)
    ensures
      var x := h.d.indirect[Group(c)];
      x == FREE_MAP_SECTOR || (x < |g.vol.used| && !g.vol.used[x])
  {
    hide Appended, CanAppend;
    assert Rounded(g) == g;
    ExtendedLength(g, h, length, log);
    IndexFromLog(g, log);
    var e := AppendedAll(g, log);
    if e.d.length < length {
      FailedSame(e, h);
    }
    assert h.d.indirect[Group(c)] == e.d.indirect[Group(c)];
    assert Group(c) < GroupsUsed(Blocks(e.d));
  }

  /** The slots in use name sector 0 and sectors that were unused. */
  lemma {:induction false} IndexFromLog(g: Growth, log: seq<Append>)
    requires g.d == EmptyInode() && IndexOk(g) && CanAppendAll(g, log)
    ensures IndexOk(AppendedAll(g, log))
    ensures SlotsFrom(g, AppendedAll(g, log))
    decreases |log|
  {
    GrownIndexOk(g, log);
    if log != [] {
      var init, a := log[..|log| - 1], log[|log| - 1];
      IndexFromLog(g, init);
      GrownUsed(g, init);
      SlotsNext(g, AppendedAll(g, init), a, AppendedAll(g, log));
    }
  }

  ghost predicate SlotsFrom(g: Growth, r: Growth)
    requires IndexOk(r)
  {
    |r.vol.used| == |g.vol.used| &&
    forall k :: 0 < k < GroupsUsed(Blocks(r.d)) ==> !g.vol.used[r.d.indirect[k]]
  }

  lemma SlotsNext(g: Growth, e: Growth, a: Append, r: Growth)
    requires IndexOk(e) && SlotsFrom(g, e) && CanAppend(e, a) && r == Appended(e, a) && IndexOk(r)
    requires forall s :: 0 <= s < |g.vol.used| && g.vol.used[s] ==> e.vol.used[s]
    ensures SlotsFrom(g, r)
  {
    NeedsIndexIff(e.d);
    AppendedIndexOk(e, a);
    forall k | 0 < k < GroupsUsed(Blocks(r.d)) ensures !g.vol.used[r.d.indirect[k]] {
      if k >= GroupsUsed(Blocks(e.d)) {
        assert NeedsIndex(e.d) && k == Group(Blocks(e.d));
        assert r.d.indirect[k] == a.index.value;
      }
    }
  }

  lemma NoIndex(g: Growth, h: Growth, length: int, log: seq<Append>)
    requires g.d == EmptyInode() && IndexOk(g) && Extended(g, h, length, log) && GrownTo(g, h) && length <= DIRECT_BYTES
    ensures forall i :: 0 <= i < |log| ==> log[i].index == None
    ensures WfGrowth(h) && forall s :: 0 <= s < |g.vol.used| && g.vol.used[s] ==> h.vol.view[s] == g.vol.view[s]
  {
    ExtendedDirect(g, h, length, log);
    if g.d.length < length {
      ExtendedByLog(g, h, length, log);
      assert Rounded(g) == g;
      GrownDirect(g, log);
    }
  }

  lemma CreatedAll(g: Growth, h: Growth, length: int, log: seq<Append>)
    requires g.d == EmptyInode() && Extended(g, h, length, log) && h.d.length >= length
    ensures WfInode(h.d) && WfGrowth(h) && h.d.length == Max(0, length) && |h.vol.view| == |g.vol.view|
  {
    ExtendedLength(g, h, length, log);
  }

  lemma CreatedDirect(vol: Volume, vol': Volume, sector: nat, length: int, d: InodeData, log: seq<Append>)
    requires CreatedAt(vol, vol', sector, length, d, log) && length <= DIRECT_BYTES
    ensures Created(vol, vol', sector, length, d)
  {
    var mid: Volume :| Extended(Growth(EmptyInode(), vol), Growth(d, mid), length, log)
                       && |mid.view| == |vol.view| && vol' == Volume(mid.used, mid.view[sector := EncodeInode(d)]);
    ExtendedDirect(Growth(EmptyInode(), vol), Growth(d, mid), length, log);
  }

  /** A chunk out of one sector of the file, byte by byte. */
  lemma ChunkBytes(d: InodeData, view: seq<Sector>, pos: nat, chunk: seq<byte>)
    requires Readable(d, view) && pos < d.length && pos + |chunk| <= d.length
    requires var o := pos % SECTOR_SIZE;
             o + |chunk| <= SECTOR_SIZE && chunk == view[Entry(d, view, pos / SECTOR_SIZE)][o..o + |chunk|]
    ensures forall i :: 0 <= i < |chunk| ==> chunk[i] == ByteAt(d, view, pos + i)
  {
    forall i | 0 <= i < |chunk| ensures chunk[i] == ByteAt(d, view, pos + i) {
      assert (pos + i) / SECTOR_SIZE == pos / SECTOR_SIZE && (pos + i) % SECTOR_SIZE == pos % SECTOR_SIZE + i;
    }
  }

  ghost predicate OwnedBelow(d: InodeData, view: seq<Sector>, n: nat, s: int)
    requires Readable(d, view) && n <= Blocks(d)
  {
    exists b :: 0 <= b < n && Entry(d, view, b) == s
  }

  lemma OwnedNext(d: InodeData, view: seq<Sector>, b: nat, s: int)
    requires Readable(d, view) && b < Blocks(d)
    ensures OwnedBelow(d, view, b + 1, s) <==> OwnedBelow(d, view, b, s) || s == Entry(d, view, b)
  {
    if s == Entry(d, view, b) {
      assert OwnedBelow(d, view, b + 1, s);
    }
  }

  /** After the appends of log, the loop of extend_disk is at h. */
  ghost predicate InLoop(g: Growth, log: seq<Append>, h: Growth, length: int) {
    && CanAppendAll(g, log) && h == AppendedAll(g, log) && IndexOk(h) && h.d.length % SECTOR_SIZE == 0
    && (log != [] ==> h.d.length - SECTOR_SIZE < length)
  }

  /** The loop has ended at h, its last successful append having led to e. */
  ghost predicate LoopDone(e: Growth, h: Growth, length: int) {
    h.d.length == e.d.length && if e.d.length >= length then h == e else AppendFailed(e, h)
  }

  lemma LogGrows(g: Growth, log: seq<Append>, e: Growth, a: Append, h: Growth, length: int)
    requires InLoop(g, log, e, length) && e.d.length < length
    requires CanAppend(e, a) && h == Appended(e, a)
    ensures InLoop(g, log + [a], h, length)
  {
    AppendedIndexOk(e, a);
    assert (log + [a])[..|log|] == log;
    assert CanAppendAll(g, log + [a]);
  }

  /** append_sector has its index sector, a.index if it had to take one. */
  ghost predicate IndexStarted(g: Growth, a: Append, w: Growth) {
    && WfGrowth(g) && NUM_DIRECT <= Blocks(g.d) < MAX_INODE_LEN / SECTOR_SIZE
    && (a.index.Some? <==> NeedsIndex(g.d)) && (NeedsIndex(g.d) ==> Fresh(g.vol, a.index.value))
    && w == WithIndex(g, a)
  }

  /** The indexed case of append_sector, spelled out. */
  lemma IndexedAppend(g: Growth, a: Append, w: Growth)
    requires IndexStarted(g, a.(data := 0), w) && Fresh(w.vol, a.data)
    ensures WfVolume(w.vol) && WfInode(w.d) && w.d.indirect[Group(Blocks(g.d))] < |w.vol.view|
    ensures CanAppend(g, a)
    ensures
      var n := Blocks(g.d);
      var x, vol := w.d.indirect[Group(n)], Take(w.vol, a.data);
      AllButLength(g, a) ==
        Growth(w.d, Volume(vol.used, vol.view[x := Splice(vol.view[x], GroupOffset(n), Le16(a.data))]))
  {
    assert WithIndex(g, a) == WithIndex(g, a.(data := 0));
  }

  /** Nothing was taken, or the index sector was given back. */
  lemma IndexKept(g: Growth, a: Append, w: Growth)
    requires IndexStarted(g, a, w) && a.index.None?
    ensures AppendFailed(g, w)
  {
  }

  lemma IndexReleased(g: Growth, a: Append, w: Growth, g': Growth)
    requires IndexStarted(g, a, w) && a.index.Some?
    requires a.index.value < |w.vol.used| && g' == Growth(w.d, Volume(w.vol.used[a.index.value := false], w.vol.view))
    ensures AppendFailed(g, g')
  {
    assert g'.vol.used == g.vol.used;
    assert g' == FailedWith(g, a.index.value);
  }
}
