/**
 Inodes as values: the block map of file-system/filesys/inode.c, how it grows, and what it says
 about a file's bytes. Module Inodes proves the code against these definitions.

 The block map is the one the code has, not the one its constants suggest: an entry of an index
 sector sits at byte ind_ofs, so neighbouring two-byte entries overlap, and indirect[0] is never
 allocated, so it keeps the value 0 it had at creation.
 */
module InodeMap {
  import opened Machine
  import opened FreeSectors

  const NUM_DIRECT := 188
  const NUM_INDIRECT := 64
  const INDIRECT_LEN := 256
  const MAX_INODE_LEN := 8 * 1024 * 1024
  const DIRECT_BYTES := NUM_DIRECT * SECTOR_SIZE
  const INODE_MAGIC: uint32 := 0x494e4f44

  /** struct inode_disk, its magic number aside. */
  datatype InodeData = InodeData(length: int, direct: seq<uint16>, indirect: seq<uint16>)

  /** The free map together with the sectors as the cache shows them. */
  datatype Volume = Volume(used: seq<bool>, view: seq<Sector>)

  /** An inode on a volume, while it grows. */
  datatype Growth = Growth(d: InodeData, vol: Volume)

  /** The sectors one successful append took: an index sector when it started a new group, and a data sector. */
  datatype Append = Append(index: Option<uint16>, data: uint16)

  ghost predicate WfVolume(vol: Volume) {
    |vol.used| == |vol.view|
  }

  ghost predicate WfInode(d: InodeData) {
    && |d.direct| == NUM_DIRECT
    && |d.indirect| == NUM_INDIRECT
    && 0 <= d.length <= MAX_INODE_LEN
  }

  ghost predicate WfGrowth(g: Growth) {
    && WfVolume(g.vol)
    && WfInode(g.d)
    && forall k :: 0 <= k < NUM_INDIRECT ==> g.d.indirect[k] < |g.vol.view|
  }

  function Blocks(d: InodeData): nat
    requires 0 <= d.length
  {
    DivRoundUp(d.length, SECTOR_SIZE)
  }

  /** The index group and the byte offset in its index sector that the code uses for block b. */
  function Group(b: int): int { (b - NUM_DIRECT) / INDIRECT_LEN }

  function GroupOffset(b: int): int { (b - NUM_DIRECT) % INDIRECT_LEN }

  /** The group of the last block of a file of this length, with C's truncating division. */
  function OldGroup(length: int): int {
    Quot(Quot(length - 1, SECTOR_SIZE) - NUM_DIRECT, INDIRECT_LEN)
  }

  /** What byte_to_sector_disk finds for block b. */
  function Entry(d: InodeData, view: seq<Sector>, b: nat): uint16
    requires WfInode(d) && b < NUM_DIRECT + NUM_INDIRECT * INDIRECT_LEN
    requires b >= NUM_DIRECT ==> d.indirect[Group(b)] < |view|
  {
    if b < NUM_DIRECT then d.direct[b]
    else FromLe16(view[d.indirect[Group(b)]][GroupOffset(b)..GroupOffset(b) + 2])
  }

  // ---------------------------------------------------------------- growth

  /** allocate_short finds s. */
  ghost predicate Fresh(vol: Volume, s: int) {
    FirstFree(vol.used, s) && s <= UINT16_MAX
  }

  /** allocate_short marks s and zeroes it. */
  function Take(vol: Volume, s: nat): Volume
    requires WfVolume(vol) && s < |vol.used|
  {
    Volume(vol.used[s := true], vol.view[s := ZeroSector()])
  }

  predicate NeedsIndex(d: InodeData)
    requires 0 <= d.length
  {
    Blocks(d) >= NUM_DIRECT && Group(Blocks(d)) > OldGroup(d.length)
  }

  /** The inode and volume once append_sector has its index sector, if it needs one. */
  function WithIndex(g: Growth, a: Append): Growth
    requires WfGrowth(g) && Blocks(g.d) < NUM_DIRECT + NUM_INDIRECT * INDIRECT_LEN
    requires NeedsIndex(g.d) ==> a.index.Some? && a.index.value < |g.vol.used|
  {
    if NeedsIndex(g.d) then
      Growth(g.d.(indirect := g.d.indirect[Group(Blocks(g.d)) := a.index.value]), Take(g.vol, a.index.value))
    else g
  }

  /** append_sector can succeed with these sectors. */
  ghost predicate CanAppend(g: Growth, a: Append) {
    && WfGrowth(g)
    && (Blocks(g.d) + 1) * SECTOR_SIZE <= MAX_INODE_LEN
    && (a.index.Some? <==> NeedsIndex(g.d))
    && (NeedsIndex(g.d) ==> Fresh(g.vol, a.index.value))
    && Fresh(WithIndex(g, a).vol, a.data)
  }

  /** The state after append_sector succeeds. */
  ghost function Appended(g: Growth, a: Append): (r: Growth)
    requires CanAppend(g, a)
    ensures WfGrowth(r) && |r.vol.used| == |g.vol.used|
    ensures Blocks(r.d) == Blocks(g.d) + 1 && r.d.length == (Blocks(g.d) + 1) * SECTOR_SIZE
  {
    var n := Blocks(g.d);
    var w := WithIndex(g, a);
    var vol := Take(w.vol, a.data);
    if n < NUM_DIRECT then
      Growth(g.d.(length := (n + 1) * SECTOR_SIZE, direct := g.d.direct[n := a.data]), vol)
    else
      var x := w.d.indirect[Group(n)];
      Growth(w.d.(length := (n + 1) * SECTOR_SIZE),
             vol.(view := vol.view[x := Splice(vol.view[x], GroupOffset(n), Le16(a.data))]))
  }

  /**
   The state after append_sector fails: nothing changed, except that when it had already taken an
   index sector, the slot still names that sector, which is unused again and was zeroed.
   */
  ghost predicate AppendFailed(g: Growth, g': Growth) {
    || g' == g
    || (&& WfGrowth(g)
        && (Blocks(g.d) + 1) * SECTOR_SIZE <= MAX_INODE_LEN
        && NeedsIndex(g.d)
        && exists x: uint16 :: Fresh(g.vol, x) && g' == FailedWith(g, x))
  }

  ghost function FailedWith(g: Growth, x: uint16): Growth
    requires WfGrowth(g) && Blocks(g.d) < NUM_DIRECT + NUM_INDIRECT * INDIRECT_LEN
    requires NeedsIndex(g.d) && x < |g.vol.view|
  {
    Growth(g.d.(indirect := g.d.indirect[Group(Blocks(g.d)) := x]),
           g.vol.(view := g.vol.view[x := ZeroSector()]))
  }

  /** A whole loop of successful appends. */
  ghost predicate CanAppendAll(g: Growth, log: seq<Append>)
    decreases |log|, 0
  {
    if log == [] then WfGrowth(g)
    else CanAppendAll(g, log[..|log| - 1]) && CanAppend(AppendedAll(g, log[..|log| - 1]), log[|log| - 1])
  }

  ghost function AppendedAll(g: Growth, log: seq<Append>): (r: Growth)
    requires CanAppendAll(g, log)
    ensures WfGrowth(g) && WfGrowth(r) && |r.vol.used| == |g.vol.used| && Blocks(r.d) == Blocks(g.d) + |log|
    ensures r.d.length == if log == [] then g.d.length else (Blocks(g.d) + |log|) * SECTOR_SIZE
    decreases |log|, 1
  {
    if log == [] then g else Appended(AppendedAll(g, log[..|log| - 1]), log[|log| - 1])
  }

  ghost function Rounded(g: Growth): Growth
    requires 0 <= g.d.length
  {
    g.(d := g.d.(length := RoundUp(g.d.length, SECTOR_SIZE)))
  }

  /** How the loop of extend_disk leaves inode and volume, e being the state after its last successful append. */
  ghost predicate Finished(e: Growth, g': Growth, length: int) {
    if e.d.length >= length then g' == e.(d := e.d.(length := length))
    else AppendFailed(e, g')
  }

  /** What extend_disk(disk, length) does, when log lists the sectors it appended. */
  ghost predicate Extended(g: Growth, g': Growth, length: int, log: seq<Append>) {
    && WfGrowth(g)
    && if g.d.length >= length then log == [] && g' == g
       else
         && CanAppendAll(Rounded(g), log)
         && (log != [] ==> AppendedAll(Rounded(g), log).d.length - SECTOR_SIZE < length)
         && Finished(AppendedAll(Rounded(g), log), g', length)
  }

  /** A failed append leaves the length alone. */
  lemma AppendFailedLength(g: Growth, g': Growth)
    requires WfGrowth(g) && AppendFailed(g, g')
    ensures WfGrowth(g') && g'.vol.used == g.vol.used && g'.d.length == g.d.length
  {
  }

  lemma FinishedLength(e: Growth, g': Growth, length: int)
    requires WfGrowth(e) && Finished(e, g', length) && e.d.length - SECTOR_SIZE < length && e.d.length % SECTOR_SIZE == 0
    requires 0 < length
    ensures WfGrowth(g') && |g'.vol.used| == |e.vol.used| && Blocks(g'.d) == Blocks(e.d)
    ensures g'.d.length == Min(length, e.d.length)
  {
    if e.d.length < length {
      AppendFailedLength(e, g');
    }
  }

  /** The loop ends at the requested length, or at a whole number of sectors below it; it never shrinks the file. */
  lemma ExtendedLength(g: Growth, g': Growth, length: int, log: seq<Append>)
    requires Extended(g, g', length, log)
    ensures WfGrowth(g') && |g'.vol.used| == |g.vol.used|
    ensures g.d.length <= g'.d.length
    ensures g.d.length < length ==>
              g'.d.length == length || (g'.d.length % SECTOR_SIZE == 0 && g'.d.length < length)
    ensures g.d.length >= length ==> g' == g
    ensures Blocks(g'.d) == Blocks(g.d) + |log|
    ensures Blocks(g'.d) <= MAX_INODE_LEN / SECTOR_SIZE < NUM_DIRECT + NUM_INDIRECT * INDIRECT_LEN
  {
    if g.d.length < length {
      FinishedLength(AppendedAll(Rounded(g), log), g', length);
    }
  }

  // ---------------------------------------------------------------- what growth takes from the free map

  ghost predicate TakenBy(a: Append, s: int) {
    s == a.data || (a.index.Some? && s == a.index.value)
  }

  ghost predicate InLog(log: seq<Append>, s: int) {
    exists i :: 0 <= i < |log| && TakenBy(log[i], s)
  }

  lemma InLogSplit(log: seq<Append>, s: int)
    requires log != []
    ensures InLog(log, s) <==> InLog(log[..|log| - 1], s) || TakenBy(log[|log| - 1], s)
  {
    var init := log[..|log| - 1];
    if InLog(log, s) {
      var i :| 0 <= i < |log| && TakenBy(log[i], s);
      if i < |log| - 1 { assert TakenBy(init[i], s); }
    }
    if InLog(init, s) {
      var i :| 0 <= i < |init| && TakenBy(init[i], s);
      assert TakenBy(log[i], s);
    }
    if TakenBy(log[|log| - 1], s) { assert InLog(log, s); }
  }

  /** One append marks exactly the sectors it took, which were unused and are two different ones. */
  lemma AppendedUsed(g: Growth, a: Append)
    requires CanAppend(g, a)
    ensures forall s :: 0 <= s < |g.vol.used| ==>
              (Appended(g, a).vol.used[s] <==> g.vol.used[s] || TakenBy(a, s))
    ensures forall s :: TakenBy(a, s) ==> 0 <= s < |g.vol.used| && !g.vol.used[s]
    ensures a.index != Some(a.data)
  {
  }

  /** Growth marks exactly the sectors in its log; all of them were unused. */
  lemma {:induction false} GrownUsed(g: Growth, log: seq<Append>)
    requires CanAppendAll(g, log)
    ensures forall s :: 0 <= s < |g.vol.used| ==>
              (AppendedAll(g, log).vol.used[s] <==> g.vol.used[s] || InLog(log, s))
    ensures forall s :: InLog(log, s) ==> 0 <= s < |g.vol.used| && !g.vol.used[s]
    decreases |log|
  {
    if log != [] {
      var init, last := log[..|log| - 1], log[|log| - 1];
      GrownUsed(g, init);
      AppendedUsed(AppendedAll(g, init), last);
      forall s { InLogSplit(log, s); }
    }
  }

  /** No sector is taken twice. */
  lemma {:induction false} GrownDistinct(g: Growth, log: seq<Append>, i: nat, j: nat, s: int)
    requires CanAppendAll(g, log) && i < j < |log|
    requires TakenBy(log[i], s)
    ensures !TakenBy(log[j], s)
    decreases |log|
  {
    var init, last := log[..|log| - 1], log[|log| - 1];
    if j < |log| - 1 {
      GrownDistinct(g, init, i, j, s);
    } else {
      assert TakenBy(init[i], s);
      GrownUsed(g, init);
      AppendedUsed(AppendedAll(g, init), last);
    }
  }

  // ---------------------------------------------------------------- growth within the direct range

  /** An inode of at most 188 sectors whose block map is injective and marked in the free map. */
  ghost predicate DirectInode(d: InodeData, used: seq<bool>) {
    && WfInode(d)
    && d.length <= DIRECT_BYTES
    && (forall b :: 0 <= b < Blocks(d) ==> d.direct[b] < |used| && used[d.direct[b]])
    && (forall b, c :: 0 <= b < c < Blocks(d) ==> d.direct[b] != d.direct[c])
  }

  /**
   Up to 188 sectors, growing leaves the old part of the block map alone, puts each new sector at the
   next direct slot, and changes no sector but the new ones, which are zero.
   */
  lemma {:induction false} GrownDirect(g: Growth, log: seq<Append>)
    requires CanAppendAll(g, log) && Blocks(g.d) + |log| <= NUM_DIRECT
    ensures
      var r := AppendedAll(g, log);
      && r.d.indirect == g.d.indirect
      && (forall b :: 0 <= b < Blocks(g.d) ==> r.d.direct[b] == g.d.direct[b])
      && (forall i :: 0 <= i < |log| ==> log[i].index == None && r.d.direct[Blocks(g.d) + i] == log[i].data)
      && (forall s :: 0 <= s < |g.vol.view| ==>
            r.vol.view[s] == if InLog(log, s) then ZeroSector() else g.vol.view[s])
    decreases |log|
  {
    if log != [] {
      var init, last := log[..|log| - 1], log[|log| - 1];
      GrownDirect(g, init);
      forall s { InLogSplit(log, s); }
    }
  }

  /** Sector s joined the block map when d became d'. */
  ghost predicate NewBlock(d: InodeData, d': InodeData, s: int)
    requires WfInode(d) && WfInode(d') && Blocks(d') <= NUM_DIRECT
  {
    exists b :: Blocks(d) <= b < Blocks(d') && d'.direct[b] == s
  }

  /** Within the direct range a failed append changes nothing, so the log says it all. */
  lemma ExtendedByLog(g: Growth, g': Growth, length: int, log: seq<Append>)
    requires Extended(g, g', length, log) && g.d.length < length <= DIRECT_BYTES
    ensures CanAppendAll(Rounded(g), log) && WfGrowth(g')
    ensures Blocks(g.d) == Blocks(Rounded(g).d) && Blocks(g'.d) == Blocks(g.d) + |log| <= NUM_DIRECT
    ensures g'.vol == AppendedAll(Rounded(g), log).vol
    ensures g'.d == AppendedAll(Rounded(g), log).d.(length := g'.d.length)
    ensures g'.d.length <= DIRECT_BYTES
  {
    ExtendedLength(g, g', length, log);
    var e := AppendedAll(Rounded(g), log);
    if e.d.length < length {
      assert Blocks(e.d) < NUM_DIRECT;
    }
  }

  lemma NewBlocksAreLog(g: Growth, d': InodeData, log: seq<Append>)
    requires WfGrowth(g) && WfInode(d') && Blocks(d') == Blocks(g.d) + |log| <= NUM_DIRECT
    requires forall i :: 0 <= i < |log| ==> log[i].index == None && d'.direct[Blocks(g.d) + i] == log[i].data
    ensures forall s :: InLog(log, s) <==> NewBlock(g.d, d', s)
    ensures forall b :: Blocks(g.d) <= b < Blocks(d') ==> TakenBy(log[b - Blocks(g.d)], d'.direct[b])
    ensures forall b :: Blocks(g.d) <= b < Blocks(d') ==> InLog(log, d'.direct[b])
  {
    forall b | Blocks(g.d) <= b < Blocks(d') ensures TakenBy(log[b - Blocks(g.d)], d'.direct[b]) {
    }
    forall s | InLog(log, s) ensures NewBlock(g.d, d', s) {
      var i :| 0 <= i < |log| && TakenBy(log[i], s);
      assert d'.direct[Blocks(g.d) + i] == s;
    }
  }

  /** d' is g.d grown into fresh, distinct sectors, and vol' is the volume with exactly those marked and zeroed. */
  ghost predicate FreshlyGrown(d: InodeData, vol: Volume, d': InodeData, vol': Volume) {
    && WfInode(d) && WfInode(d') && WfVolume(vol) && WfVolume(vol')
    && |vol'.used| == |vol.used|
    && d'.length <= DIRECT_BYTES && Blocks(d) <= Blocks(d')
    && d'.indirect == d.indirect
    && (forall b :: 0 <= b < Blocks(d) ==> d'.direct[b] == d.direct[b])
    && (forall b :: Blocks(d) <= b < Blocks(d') ==> d'.direct[b] < |vol.used| && !vol.used[d'.direct[b]])
    && (forall b, c :: Blocks(d) <= b < c < Blocks(d') ==> d'.direct[b] != d'.direct[c])
    && (forall s :: 0 <= s < |vol.used| ==> (vol'.used[s] <==> vol.used[s] || NewBlock(d, d', s)))
    && (forall s :: 0 <= s < |vol.view| ==> vol'.view[s] == if NewBlock(d, d', s) then ZeroSector() else vol.view[s])
  }

  lemma GrownFreshly(g: Growth, log: seq<Append>, d': InodeData)
    requires CanAppendAll(g, log) && WfInode(d') && d'.length <= DIRECT_BYTES
    requires Blocks(d') == Blocks(g.d) + |log| && d' == AppendedAll(g, log).d.(length := d'.length)
    ensures FreshlyGrown(g.d, g.vol, d', AppendedAll(g, log).vol)
  {
    GrownDirect(g, log);
    GrownUsed(g, log);
    NewBlocksAreLog(g, d', log);
    var n := Blocks(g.d);
    forall b, c | n <= b < c < Blocks(d') ensures d'.direct[b] != d'.direct[c] {
      GrownDistinct(g, log, b - n, c - n, d'.direct[b]);
    }
  }

  lemma FreshlyGrownFrom(d: InodeData, r: InodeData, vol: Volume, d': InodeData, vol': Volume)
    requires WfInode(d) && FreshlyGrown(r, vol, d', vol')
    requires Blocks(d) == Blocks(r) && d.direct == r.direct && d.indirect == r.indirect
    ensures FreshlyGrown(d, vol, d', vol')
  {
  }

  lemma NothingGrown(g: Growth)
    requires WfGrowth(g) && g.d.length <= DIRECT_BYTES
    ensures FreshlyGrown(g.d, g.vol, g.d, g.vol)
  {
  }

  /**
   extend_disk up to 96256 bytes: the old block map stays, every new block is a sector that was
   unused, distinct from all others, marked and zero; nothing else of the volume changes.
   */
  lemma ExtendedDirect(g: Growth, g': Growth, length: int, log: seq<Append>)
    requires Extended(g, g', length, log) && g.d.length <= DIRECT_BYTES
    requires length <= DIRECT_BYTES
    ensures FreshlyGrown(g.d, g.vol, g'.d, g'.vol)
  {
    if g.d.length < length {
      ExtendedByLog(g, g', length, log);
      GrownFreshly(Rounded(g), log, g'.d);
      FreshlyGrownFrom(g.d, Rounded(g).d, g.vol, g'.d, g'.vol);
    } else {
      NothingGrown(g);
    }
  }

  lemma ExtendedDirectInode(g: Growth, g': Growth, length: int, log: seq<Append>)
    requires Extended(g, g', length, log) && DirectInode(g.d, g.vol.used)
    requires length <= DIRECT_BYTES
    ensures DirectInode(g'.d, g'.vol.used)
  {
    ExtendedDirect(g, g', length, log);
    forall b | 0 <= b < Blocks(g'.d) ensures g'.d.direct[b] < |g'.vol.used| && g'.vol.used[g'.d.direct[b]] {
      if Blocks(g.d) <= b { assert NewBlock(g.d, g'.d, g'.d.direct[b]); }
    }
  }

  // ---------------------------------------------------------------- growth past the direct range

  /** The number of leading index slots that name a sector in use; slot 0 counts from the start, holding 0. */
  function GroupsUsed(blocks: nat): int {
    if blocks <= NUM_DIRECT then 1 else Group(blocks - 1) + 1
  }

  /** The index sectors in use: slot 0 is still the free map's inode sector, the others are marked and distinct. */
  ghost predicate IndexOk(g: Growth) {
    && WfGrowth(g)
    && Blocks(g.d) < NUM_DIRECT + NUM_INDIRECT * INDIRECT_LEN
    && |g.vol.used| > FREE_MAP_SECTOR && g.vol.used[FREE_MAP_SECTOR]
    && g.d.indirect[0] == FREE_MAP_SECTOR
    && (forall k :: 0 <= k < GroupsUsed(Blocks(g.d)) ==> g.vol.used[g.d.indirect[k]])
    && (forall k, l :: 0 <= k < l < GroupsUsed(Blocks(g.d)) ==> g.d.indirect[k] != g.d.indirect[l])
  }

  /** C's truncating -1/256 == 0 makes the first index group look already there: only later groups get a sector. */
  lemma NeedsIndexIff(d: InodeData)
    requires 0 <= d.length <= MAX_INODE_LEN
    ensures NeedsIndex(d) <==> Blocks(d) > NUM_DIRECT && GroupOffset(Blocks(d)) == 0
    ensures NeedsIndex(d) ==> Group(Blocks(d)) == GroupsUsed(Blocks(d))
  {
    var n := Blocks(d);
    if n >= NUM_DIRECT {
      assert Quot(d.length - 1, SECTOR_SIZE) == n - 1;
      if n == NUM_DIRECT {
        assert OldGroup(d.length) == 0;
      } else {
        assert OldGroup(d.length) == (n - 1 - NUM_DIRECT) / INDIRECT_LEN;
      }
    }
  }

  lemma AppendedIndexOk(g: Growth, a: Append)
    requires CanAppend(g, a) && IndexOk(g)
    ensures IndexOk(Appended(g, a))
    ensures forall k :: 0 <= k < GroupsUsed(Blocks(g.d)) ==> Appended(g, a).d.indirect[k] == g.d.indirect[k]
  {
    NeedsIndexIff(g.d);
  }

  lemma {:induction false} GrownIndexOk(g: Growth, log: seq<Append>)
    requires CanAppendAll(g, log) && IndexOk(g)
    ensures IndexOk(AppendedAll(g, log))
    decreases |log|
  {
    if log != [] {
      GrownIndexOk(g, log[..|log| - 1]);
      AppendedIndexOk(AppendedAll(g, log[..|log| - 1]), log[|log| - 1]);
    }
  }

  /**
   Whatever its length, a file never owns an index sector for its first group: slot 0 goes on naming
   the free map's own inode sector. So all index sectors a file uses are its own exactly when it
   stays within its 188 direct sectors.
   */
  lemma IndexOwnedIff(g: Growth, log: seq<Append>)
    requires CanAppendAll(g, log) && IndexOk(g)
    ensures
      var r := AppendedAll(g, log);
      && IndexOk(r)
      && ((forall b :: NUM_DIRECT <= b < Blocks(r.d) ==> r.d.indirect[Group(b)] != FREE_MAP_SECTOR)
          <==> Blocks(g.d) + |log| <= NUM_DIRECT)
  {
    GrownIndexOk(g, log);
    var r := AppendedAll(g, log);
    if Blocks(r.d) > NUM_DIRECT {
      assert r.d.indirect[Group(NUM_DIRECT)] == FREE_MAP_SECTOR;
    }
  }

  /** A failed append leaves every entry of the block map, and the free map, as they were. */
  lemma FailedKeepsMap(g: Growth, g': Growth, b: nat)
    requires IndexOk(g) && AppendFailed(g, g') && b < Blocks(g.d)
    ensures g'.vol.used == g.vol.used && g'.d.length == g.d.length && WfGrowth(g')
    ensures Entry(g'.d, g'.vol.view, b) == Entry(g.d, g.vol.view, b)
  {
    if g' != g {
      NeedsIndexIff(g.d);
      var x: uint16 :| Fresh(g.vol, x) && g' == FailedWith(g, x);
      if b >= NUM_DIRECT {
        assert g'.d.indirect[Group(b)] == g.d.indirect[Group(b)];
        assert g.vol.used[g.d.indirect[Group(b)]];
      }
    }
  }
}
