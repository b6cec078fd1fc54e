/**
 The buffer cache of file-system/filesys/cache.c, one thread at a time: 64 entries over a block
 device, second-chance replacement, dirty entries written back on eviction or by cache_save.
 Clients see only View(), the sectors as they would be if every dirty entry were on the disk.
 What happens when threads interleave is the subject of module CacheProtocol.
 */
module BufferCache {
  import opened Machine

  const CACHE_SIZE := 64

  /** (block_sector_t) -1, the sector of an entry that holds nothing. */
  const NO_SECTOR := 0xFFFF_FFFF

  datatype CacheEntry = CacheEntry(sector: uint32, dirty: bool, accessed: bool, data: Sector)

  /** An entry holds a sector of the device, and agrees with the device unless it is dirty. */
  ghost predicate EntryOk(e: CacheEntry, disk: seq<Sector>) {
    if e.sector == NO_SECTOR then !e.dirty
    else e.sector < |disk| && (e.dirty || e.data == disk[e.sector])
  }

  ghost predicate Consistent(es: seq<CacheEntry>, disk: seq<Sector>) {
    && |es| == CACHE_SIZE
    && |disk| <= NO_SECTOR
    && (forall i :: 0 <= i < |es| ==> EntryOk(es[i], disk))
    && (forall i, j :: 0 <= i < j < |es| && es[i].sector == es[j].sector ==> es[i].sector == NO_SECTOR)
  }

  ghost predicate Cached(es: seq<CacheEntry>, s: int) {
    exists i :: 0 <= i < |es| && es[i].sector == s
  }

  /** The current contents of sector s: its cache entry if it has one, else the device. */
  ghost function Current(es: seq<CacheEntry>, disk: seq<Sector>, s: nat): Sector
    requires s < |disk|
  {
    if Cached(es, s) then
      var i :| 0 <= i < |es| && es[i].sector == s;
      es[i].data
    else disk[s]
  }

  ghost function CacheView(es: seq<CacheEntry>, disk: seq<Sector>): (v: seq<Sector>)
    ensures |v| == |disk|
  {
    seq(|disk|, s requires 0 <= s < |disk| => Current(es, disk, s))
  }

  /** With no sector cached twice, the entry found is the entry meant. */
  lemma CurrentIs(es: seq<CacheEntry>, disk: seq<Sector>, i: nat)
    requires Consistent(es, disk) && i < |es| && es[i].sector != NO_SECTOR
    ensures CacheView(es, disk)[es[i].sector] == es[i].data
  {
  }

  /** Two states of cache and disk that agree on every sector have the same view. */
  lemma SameView(es: seq<CacheEntry>, disk: seq<Sector>, es': seq<CacheEntry>, disk': seq<Sector>)
    requires |disk| == |disk'|
    requires forall s :: 0 <= s < |disk| ==> Current(es, disk, s) == Current(es', disk', s)
    ensures CacheView(es, disk) == CacheView(es', disk')
  {
  }

  /** Flushing an entry, or changing its accessed bit, does not change the view. */
  lemma FlushKeepsView(es: seq<CacheEntry>, disk: seq<Sector>, i: nat, accessed: bool)
    requires Consistent(es, disk) && i < |es| && es[i].sector != NO_SECTOR
    ensures
      var es' := es[i := es[i].(dirty := false, accessed := accessed)];
      var disk' := disk[es[i].sector := es[i].data];
      Consistent(es', disk') && CacheView(es', disk') == CacheView(es, disk)
  {
    var es' := es[i := es[i].(dirty := false, accessed := accessed)];
    var disk' := disk[es[i].sector := es[i].data];
    forall j | 0 <= j < |es'| ensures EntryOk(es'[j], disk') {
    }
    forall s | 0 <= s < |disk| ensures Current(es, disk, s) == Current(es', disk', s) {
      SectorsMatch(es, es', s);
    }
    SameView(es, disk, es', disk');
  }

  lemma SectorsMatch(es: seq<CacheEntry>, es': seq<CacheEntry>, s: int)
    requires |es| == |es'| && forall j :: 0 <= j < |es| ==> es[j].sector == es'[j].sector
    ensures Cached(es, s) == Cached(es', s)
  {
    if Cached(es, s) {
      var i :| 0 <= i < |es| && es[i].sector == s;
      assert es'[i].sector == s;
    }
    if Cached(es', s) {
      var i :| 0 <= i < |es'| && es'[i].sector == s;
      assert es[i].sector == s;
    }
  }

  lemma AccessedKeepsView(es: seq<CacheEntry>, disk: seq<Sector>, es': seq<CacheEntry>)
    requires Consistent(es, disk) && |es'| == |es|
    requires forall j :: 0 <= j < |es| ==> es'[j] == es[j].(accessed := es'[j].accessed)
    ensures Consistent(es', disk) && CacheView(es', disk) == CacheView(es, disk)
  {
    forall j | 0 <= j < |es'| ensures EntryOk(es'[j], disk) {
      assert EntryOk(es[j], disk);
    }
    forall s | 0 <= s < |disk| ensures Current(es, disk, s) == Current(es', disk, s) {
      SectorsMatch(es, es', s);
    }
    SameView(es, disk, es', disk);
  }

  /** Reusing a clean entry for a sector that is not cached does not change the view. */
  lemma ClaimKeepsView(es: seq<CacheEntry>, disk: seq<Sector>, i: nat, s: nat)
    requires Consistent(es, disk) && i < |es| && !es[i].dirty
    requires s < |disk| && !Cached(es, s)
    ensures
      var es' := es[i := es[i].(sector := s, data := disk[s])];
      Consistent(es', disk) && CacheView(es', disk) == CacheView(es, disk)
  {
    var es' := es[i := es[i].(sector := s, data := disk[s])];
    forall j | 0 <= j < |es'| ensures EntryOk(es'[j], disk) {
    }
    assert forall j :: 0 <= j < |es| ==> es[j].sector != s;
    forall t | 0 <= t < |disk| ensures Current(es, disk, t) == Current(es', disk, t) {
      if t == s {
        assert es'[i].sector == s;
      } else if Cached(es, t) {
        var k :| 0 <= k < |es| && es[k].sector == t;
        if k != i {
          assert es'[k].sector == t;
        } else {
          assert EntryOk(es[i], disk);
        }
      }
    }
    SameView(es, disk, es', disk);
  }

  /** Changing the data of a cached sector changes the view there and nowhere else. */
  lemma StoreChangesView(es: seq<CacheEntry>, disk: seq<Sector>, i: nat, data: Sector)
    requires Consistent(es, disk) && i < |es| && es[i].sector != NO_SECTOR
    ensures
      var es' := es[i := es[i].(dirty := true, accessed := true, data := data)];
      Consistent(es', disk) && CacheView(es', disk) == CacheView(es, disk)[es[i].sector := data]
  {
    var es' := es[i := es[i].(dirty := true, accessed := true, data := data)];
    forall j | 0 <= j < |es'| ensures EntryOk(es'[j], disk) {
    }
    forall t | 0 <= t < |disk|
      ensures CacheView(es', disk)[t] == CacheView(es, disk)[es[i].sector := data][t]
    {
      SectorsMatch(es, es', t);
      if t == es[i].sector {
        CurrentIs(es', disk, i);
      }
    }
  }

  class Cache {
    const entries: array<CacheEntry>
    var disk: seq<Sector>

    ghost predicate Valid()
      reads this, entries
    {
      Consistent(entries[..], disk)
    }

    ghost function View(): (v: seq<Sector>)
      reads this, entries
      ensures |v| == |disk|
    {
      CacheView(entries[..], disk)
    }

    /** cache_init over a device with the given contents. */
    constructor (device: seq<Sector>)
      requires |device| <= NO_SECTOR
      ensures Valid() && fresh(entries)
      ensures disk == device && View() == device
    {
      entries := new CacheEntry[CACHE_SIZE](_ => CacheEntry(NO_SECTOR, false, false, ZeroSector()));
      disk := device;
      new;
      assert forall s :: 0 <= s < |disk| ==> !Cached(entries[..], s);
    }

    /**
     The second-chance scan: entries before the victim lose their accessed bit, the victim is the
     first entry found without one (or the last entry when all had it), and it leaves clean.
     */
    method NextCacheEntry() returns (victim: nat)
      requires Valid()
      modifies this, entries
      ensures Valid() && View() == old(View()) && |disk| == old(|disk|)
      ensures victim < CACHE_SIZE && !entries[victim].dirty && !entries[victim].accessed
      ensures victim == CACHE_SIZE - 1 || !old(entries[victim].accessed)
      ensures forall j :: 0 <= j < victim ==> old(entries[j].accessed)
      ensures forall j :: 0 <= j < victim ==> entries[j] == old(entries[j]).(accessed := false)
      ensures forall j :: victim < j < CACHE_SIZE ==> entries[j] == old(entries[j])
      ensures entries[victim] == old(entries[victim]).(accessed := false, dirty := false)
    {
      victim := 0;
      var i := 0;
      while i < CACHE_SIZE
        invariant 0 <= i <= CACHE_SIZE
        invariant victim == if i == 0 then 0 else i - 1
        invariant forall j :: 0 <= j < i ==> old(entries[j].accessed)
        invariant forall j :: 0 <= j < i ==> entries[j] == old(entries[j]).(accessed := false)
        invariant forall j :: i <= j < CACHE_SIZE ==> entries[j] == old(entries[j])
        invariant disk == old(disk)
      {
        victim := i;
        if entries[i].accessed {
          entries[i] := entries[i].(accessed := false);
        } else {
          break;
        }
        i := i + 1;
      }
      AccessedKeepsView(old(entries[..]), disk, entries[..]);
      if entries[victim].dirty {
        FlushKeepsView(entries[..], disk, victim, entries[victim].accessed);
        ghost var before := entries[..];
        assert EntryOk(before[victim], disk);
        disk := disk[entries[victim].sector := entries[victim].data];
        entries[victim] := entries[victim].(dirty := false);
        assert entries[..] == before[victim := before[victim].(dirty := false, accessed := before[victim].accessed)];
      }
    }

    method FindCacheEntry(sector: uint32) returns (k: nat)
      requires Valid() && sector < |disk|
      modifies this, entries
      ensures Valid() && View() == old(View()) && |disk| == old(|disk|)
      ensures k < CACHE_SIZE && entries[k].sector == sector
    {
      var i := 0;
      while i < CACHE_SIZE
        invariant 0 <= i <= CACHE_SIZE
        invariant forall j :: 0 <= j < i ==> entries[j].sector != sector
        invariant entries[..] == old(entries[..]) && disk == old(disk)
      {
        if entries[i].sector == sector {
          return i;
        }
        i := i + 1;
      }
      k := NextCacheEntry();
      assert !Cached(entries[..], sector);
      ClaimKeepsView(entries[..], disk, k, sector);
      ghost var before := entries[..];
      entries[k] := entries[k].(sector := sector, data := disk[sector]);
      assert entries[..] == before[k := before[k].(sector := sector, data := disk[sector])];
    }

    method CacheWrite(sector: uint32, buffer: seq<byte>, offset: nat)
      requires Valid() && sector < |disk| && offset + |buffer| <= SECTOR_SIZE
      modifies this, entries
      ensures Valid() && |disk| == old(|disk|)
      ensures View() == old(View())[sector := Splice(old(View())[sector], offset, buffer)]
    {
      var k := FindCacheEntry(sector);
      CurrentIs(entries[..], disk, k);
      StoreChangesView(entries[..], disk, k, Splice(entries[k].data, offset, buffer));
      ghost var before := entries[..];
      entries[k] := entries[k].(dirty := true, accessed := true, data := Splice(entries[k].data, offset, buffer));
      assert entries[..] == before[k := entries[k]];
    }

    method CacheRead(sector: uint32, size: nat, offset: nat) returns (buffer: seq<byte>)
      requires Valid() && sector < |disk| && offset + size <= SECTOR_SIZE
      modifies this, entries
      ensures Valid() && View() == old(View()) && |disk| == old(|disk|)
      ensures buffer == View()[sector][offset..offset + size]
    {
      var k := FindCacheEntry(sector);
      ghost var before := entries[..];
      entries[k] := entries[k].(accessed := true);
      AccessedKeepsView(before, disk, entries[..]);
      CurrentIs(entries[..], disk, k);
      buffer := entries[k].data[offset..offset + size];
    }

    method CacheZero(sector: uint32)
      requires Valid() && sector < |disk|
      modifies this, entries
      ensures Valid() && |disk| == old(|disk|)
      ensures View() == old(View())[sector := ZeroSector()]
    {
      var k := FindCacheEntry(sector);
      StoreChangesView(entries[..], disk, k, ZeroSector());
      ghost var before := entries[..];
      entries[k] := entries[k].(dirty := true, accessed := true, data := ZeroSector());
      assert entries[..] == before[k := entries[k]];
    }

    /** One pass of the write-behind thread: afterwards the device itself is the view. */
    method CacheSave()
      requires Valid()
      modifies this, entries
      ensures Valid() && View() == old(View()) && disk == old(View())
    {
      var i := 0;
      while i < CACHE_SIZE
        invariant 0 <= i <= CACHE_SIZE
        invariant Valid() && View() == old(View()) && |disk| == old(|disk|)
        invariant forall j :: 0 <= j < i ==> !entries[j].dirty
      {
        if entries[i].dirty {
          ghost var before := entries[..];
          assert EntryOk(before[i], disk);
          FlushKeepsView(before, disk, i, entries[i].accessed);
          disk := disk[entries[i].sector := entries[i].data];
          entries[i] := entries[i].(dirty := false);
          assert entries[..] == before[i := before[i].(dirty := false, accessed := before[i].accessed)];
        }
        i := i + 1;
      }
      AllCleanView(entries[..], disk);
    }
  }

  /** When no entry is dirty, the device holds the view. */
  lemma AllCleanView(es: seq<CacheEntry>, disk: seq<Sector>)
    requires Consistent(es, disk) && forall j :: 0 <= j < |es| ==> !es[j].dirty
    ensures CacheView(es, disk) == disk
  {
    forall s | 0 <= s < |disk| ensures Current(es, disk, s) == disk[s] {
      if Cached(es, s) {
        var i :| 0 <= i < |es| && es[i].sector == s && Current(es, disk, s) == es[i].data;
        assert EntryOk(es[i], disk);
      }
    }
  }
}
