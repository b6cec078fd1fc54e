/**
 The free map's own file (file-system/filesys/free-map.c): one bit per sector, rewritten by every
 allocation and release. lib/kernel/bitmap.c is not part of this model; the layout assumed for its
 file is whole 32-bit words with the lowest bit first.
 */
module FreeMapFiles {
  import opened Machine
  import opened InodeMap
  import opened FileContent

  /** bitmap_file_size for n sectors. */
  function BitmapSize(n: nat): nat { DivRoundUp(n, 32) * 4 }

  function Bit(used: seq<bool>, s: nat): int { if s < |used| && used[s] then 1 else 0 }

  function Exp2(n: nat): nat { if n == 0 then 1 else 2 * Exp2(n - 1) }

  /** n bits from sector s on, the lowest first. */
  function Packed(used: seq<bool>, s: nat, n: nat): (b: nat)
    ensures b < Exp2(n)
    decreases n
  {
    if n == 0 then 0 else Bit(used, s) + 2 * Packed(used, s + 1, n - 1)
  }

  function BitmapByte(used: seq<bool>, i: nat): byte {
    assert Exp2(8) == 256 by { assert Exp2(4) == 16; assert Exp2(6) == 64; }
    Packed(used, 8 * i, 8)
  }

  /** The bytes bitmap_write stores. */
  function BitmapBytes(used: seq<bool>): (b: seq<byte>)
    ensures |b| == BitmapSize(|used|)
  {
    seq(BitmapSize(|used|), i requires 0 <= i < BitmapSize(|used|) => BitmapByte(used, i))
  }

  function BitAt(b: nat, j: nat): bool {
    if j == 0 then b % 2 == 1 else BitAt(b / 2, j - 1)
  }

  /** bitmap_read of n bits. */
  function ReadBits(b: seq<byte>, n: nat): (r: seq<bool>)
    requires n <= 8 * |b|
    ensures |r| == n
  {
    seq(n, s requires 0 <= s < n => BitAt(b[s / 8], s % 8))
  }

  lemma {:induction false} PackedBit(used: seq<bool>, s: nat, n: nat, j: nat)
    requires j < n
    ensures BitAt(Packed(used, s, n), j) <==> Bit(used, s + j) == 1
    decreases j
  {
    if j > 0 {
      PackedBit(used, s + 1, n - 1, j - 1);
      assert Packed(used, s, n) / 2 == Packed(used, s + 1, n - 1);
    }
  }

  /** What free_map_open reads is what was written last. */
  lemma BitmapRoundTrip(used: seq<bool>)
    ensures |used| <= 8 * BitmapSize(|used|) && ReadBits(BitmapBytes(used), |used|) == used
  {
    forall s | 0 <= s < |used| ensures ReadBits(BitmapBytes(used), |used|)[s] == used[s] {
      PackedBit(used, s / 8 * 8, 8, s % 8);
    }
  }

  /** The blocks of the free map's file, none while there is no such file. */
  ghost predicate MapOk(blocks: seq<uint16>, used: seq<bool>) {
    && (blocks != [] ==> |blocks| == DivRoundUp(BitmapSize(|used|), SECTOR_SIZE))
    && (forall k :: 0 <= k < |blocks| ==> blocks[k] < |used| && used[blocks[k]])
    && (forall k, l :: 0 <= k < l < |blocks| ==> blocks[k] != blocks[l])
  }

  lemma MapOkKept(blocks: seq<uint16>, used: seq<bool>, s: nat, b: bool)
    requires MapOk(blocks, used) && s < |used| && (s in blocks ==> b)
    ensures MapOk(blocks, used[s := b])
  {
  }

  /** The content of the free map's file. */
  ghost function MapContent(blocks: seq<uint16>, view: seq<Sector>, n: nat): (b: seq<byte>)
    requires n <= |blocks| * SECTOR_SIZE && forall k :: 0 <= k < |blocks| ==> blocks[k] < |view|
    ensures |b| == n
  {
    seq(n, i requires 0 <= i < n => view[blocks[i / SECTOR_SIZE]][i % SECTOR_SIZE])
  }

  /** The file, if there is one, says which sectors are used. */
  ghost predicate MapCurrent(blocks: seq<uint16>, used: seq<bool>, view: seq<Sector>)
    requires MapOk(blocks, used) && |view| == |used|
  {
    blocks != [] ==> MapContent(blocks, view, BitmapSize(|used|)) == BitmapBytes(used)
  }

  /** The sectors that are not blocks of the free map's file. */
  ghost function Masked(view: seq<Sector>, blocks: seq<uint16>): (r: seq<Sector>)
    ensures |r| == |view|
    ensures forall s :: 0 <= s < |view| ==> r[s] == if s in blocks then ZeroSector() else view[s]
  {
    seq(|view|, s requires 0 <= s < |view| => if s in blocks then ZeroSector() else view[s])
  }

  lemma MaskedUpdate(view: seq<Sector>, blocks: seq<uint16>, s: nat, data: Sector)
    requires s < |view| && s !in blocks
    ensures Masked(view[s := data], blocks) == Masked(view, blocks)[s := data]
  {
  }

  lemma MaskedBlock(view: seq<Sector>, blocks: seq<uint16>, s: nat, data: Sector)
    requires s < |view| && s in blocks
    ensures Masked(view[s := data], blocks) == Masked(view, blocks)
  {
  }

  /** A change outside the file leaves its content alone. */
  lemma MapContentKept(blocks: seq<uint16>, view: seq<Sector>, n: nat, s: nat, data: Sector)
    requires n <= |blocks| * SECTOR_SIZE && forall k :: 0 <= k < |blocks| ==> blocks[k] < |view|
    requires s < |view| && s !in blocks
    ensures MapContent(blocks, view[s := data], n) == MapContent(blocks, view, n)
  {
    forall i | 0 <= i < n ensures view[s := data][blocks[i / SECTOR_SIZE]] == view[blocks[i / SECTOR_SIZE]] {
    }
  }

  lemma CurrentKept(blocks: seq<uint16>, used: seq<bool>, view: seq<Sector>, s: nat, data: Sector)
    requires MapOk(blocks, used) && |view| == |used| && s < |view| && s !in blocks
    requires MapCurrent(blocks, used, view)
    ensures MapCurrent(blocks, used, view[s := data])
  {
    if blocks != [] {
      MapContentKept(blocks, view, BitmapSize(|used|), s, data);
    }
  }

  /** Storing the next part of the bitmap in the next block. */
  lemma SavedMore(blocks: seq<uint16>, view: seq<Sector>, bytes: seq<byte>, k: nat, data: Sector)
    requires forall j :: 0 <= j < |blocks| ==> blocks[j] < |view|
    requires forall j, l :: 0 <= j < l < |blocks| ==> blocks[j] != blocks[l]
    requires k < |blocks| && k * SECTOR_SIZE < |bytes|
    requires MapContent(blocks, view, k * SECTOR_SIZE) == bytes[..k * SECTOR_SIZE]
    requires
      var n := Min(SECTOR_SIZE, |bytes| - k * SECTOR_SIZE);
      data[..n] == bytes[k * SECTOR_SIZE..][..n]
    ensures
      var m := Min((k + 1) * SECTOR_SIZE, |bytes|);
      MapContent(blocks, view[blocks[k] := data], m) == bytes[..m]
  {
    var m := Min((k + 1) * SECTOR_SIZE, |bytes|);
    var r := MapContent(blocks, view[blocks[k] := data], m);
    var was := MapContent(blocks, view, k * SECTOR_SIZE);
    forall i | 0 <= i < m ensures r[i] == bytes[i] {
      if i < k * SECTOR_SIZE {
        assert r[i] == was[i];
      } else {
        assert i / SECTOR_SIZE == k && i % SECTOR_SIZE == i - k * SECTOR_SIZE;
        assert data[..Min(SECTOR_SIZE, |bytes| - k * SECTOR_SIZE)][i - k * SECTOR_SIZE] == bytes[i];
      }
    }
  }

  // ---------------------------------------------------------------- files off the map

  /** No sector a file uses is a block of the free map's file. */
  ghost predicate OffMap(d: InodeData, blocks: seq<uint16>)
    requires WfInode(d)
  {
    && (forall b :: 0 <= b < Blocks(d) && b < NUM_DIRECT ==> d.direct[b] !in blocks)
    && (forall k :: 0 <= k < GroupsUsed(Blocks(d)) && k < NUM_INDIRECT ==> d.indirect[k] !in blocks)
  }

  /** Nor, past the direct range, any sector its index entries name. */
  ghost predicate OffFile(d: InodeData, view: seq<Sector>, blocks: seq<uint16>)
    requires Readable(d, view)
  {
    OffMap(d, blocks) && forall b :: 0 <= b < Blocks(d) ==> Entry(d, view, b) !in blocks
  }

  lemma MaskedEntry(d: InodeData, view: seq<Sector>, blocks: seq<uint16>, b: nat)
    requires WfInode(d) && b < Blocks(d) && OffMap(d, blocks) && (b >= NUM_DIRECT ==> d.indirect[Group(b)] < |view|)
    ensures Entry(d, Masked(view, blocks), b) == Entry(d, view, b)
  {
  }

  /** A failed append changes at most a slot that is not in use. */
  lemma FailedOffMap(g: Growth, g': Growth, blocks: seq<uint16>)
    requires IndexOk(g) && AppendFailed(g, g') && OffMap(g.d, blocks)
    ensures WfInode(g'.d) && OffMap(g'.d, blocks)
  {
    NeedsIndexIff(g.d);
  }

  /** Sectors taken by growth were unused, so they are off the map. */
  lemma AppendedOffMap(g: Growth, a: Append, blocks: seq<uint16>)
    requires CanAppend(g, a) && IndexOk(g) && MapOk(blocks, g.vol.used) && OffMap(g.d, blocks)
    ensures OffMap(Appended(g, a).d, blocks) && MapOk(blocks, Appended(g, a).vol.used)
  {
    NeedsIndexIff(g.d);
    AppendedIndexOk(g, a);
    AppendedUsed(g, a);
    assert TakenBy(a, a.data) && (a.index.Some? ==> TakenBy(a, a.index.value));
  }
}
