/** A file's bytes as its inode and the sectors show them, and what growth and stores do to them. */
module FileContent {
  import opened Machine
  import opened InodeMap

  /** Every block of the map names a sector of the device. */
  ghost predicate Readable(d: InodeData, view: seq<Sector>) {
    && WfInode(d)
    && forall b :: 0 <= b < Blocks(d) ==>
         && (b >= NUM_DIRECT ==> d.indirect[Group(b)] < |view|)
         && Entry(d, view, b) < |view|
  }

  /** Byte p of the sectors of the file, whether or not it lies within the file's length. */
  function ByteAt(d: InodeData, view: seq<Sector>, p: nat): byte
    requires Readable(d, view) && p < Blocks(d) * SECTOR_SIZE
  {
    view[Entry(d, view, p / SECTOR_SIZE)][p % SECTOR_SIZE]
  }

  ghost function Content(d: InodeData, view: seq<Sector>): (c: seq<byte>)
    requires Readable(d, view)
    ensures |c| == d.length
    ensures forall p :: 0 <= p < d.length ==> c[p] == ByteAt(d, view, p)
  {
    seq(d.length, p requires 0 <= p < d.length => ByteAt(d, view, p))
  }

  /** The bytes between the end of the file and the end of its last sector are zero. */
  ghost predicate CleanTail(d: InodeData, view: seq<Sector>)
    requires Readable(d, view)
  {
    forall p :: d.length <= p < Blocks(d) * SECTOR_SIZE ==> ByteAt(d, view, p) == 0
  }

  ghost predicate OwnsBlock(d: InodeData, s: int)
    requires WfInode(d) && Blocks(d) <= NUM_DIRECT
  {
    exists b :: 0 <= b < Blocks(d) && d.direct[b] == s
  }

  /** s holds a block of the file, as its block map reads. */
  ghost predicate OwnsSector(d: InodeData, view: seq<Sector>, s: int)
    requires Readable(d, view)
  {
    exists b :: 0 <= b < Blocks(d) && Entry(d, view, b) == s
  }

  /** The sectors the block map reads as are marked, pairwise different, and none of them an index sector it is read from. */
  ghost predicate Mapped(d: InodeData, vol: Volume) {
    && WfVolume(vol) && Readable(d, vol.view)
    && (forall b :: 0 <= b < Blocks(d) ==> vol.used[Entry(d, vol.view, b)])
    && (forall b, c :: 0 <= b < c < Blocks(d) ==> Entry(d, vol.view, b) != Entry(d, vol.view, c))
    && (forall b, c :: 0 <= b < Blocks(d) && NUM_DIRECT <= c < Blocks(d) ==> Entry(d, vol.view, b) != d.indirect[Group(c)])
  }

  /** Up to 188 sectors the block map is its direct entries. */
  lemma DirectIsMapped(d: InodeData, vol: Volume)
    requires WfVolume(vol) && WfInode(d) && d.length <= DIRECT_BYTES
    ensures Mapped(d, vol) <==> DirectInode(d, vol.used)
    ensures Mapped(d, vol) ==> forall s :: OwnsSector(d, vol.view, s) <==> OwnsBlock(d, s)
  {
    if Mapped(d, vol) {
      forall s ensures OwnsSector(d, vol.view, s) <==> OwnsBlock(d, s) {
        if OwnsBlock(d, s) {
          var b :| 0 <= b < Blocks(d) && d.direct[b] == s;
          assert Entry(d, vol.view, b) == s;
        }
        if OwnsSector(d, vol.view, s) {
          var b :| 0 <= b < Blocks(d) && Entry(d, vol.view, b) == s;
          assert d.direct[b] == s;
        }
      }
      assert forall b :: 0 <= b < Blocks(d) ==> Entry(d, vol.view, b) == d.direct[b];
    }
  }

  /** view' is view with data stored at offset of the file d, and every sector outside the file as it was. */
  ghost predicate Stored(d: InodeData, view: seq<Sector>, view': seq<Sector>, offset: nat, data: seq<byte>) {
    && |view'| == |view|
    && Readable(d, view) && Readable(d, view')
    && (forall p :: 0 <= p < Blocks(d) * SECTOR_SIZE ==>
          ByteAt(d, view', p) == if offset <= p < offset + |data| then data[p - offset] else ByteAt(d, view, p))
    && (forall s :: 0 <= s < |view| && !OwnsSector(d, view, s) ==> view'[s] == view[s])
  }

  /** Growth keeps every byte the file's sectors had, and adds zero bytes after them. */
  lemma GrownBytes(d: InodeData, vol: Volume, d': InodeData, vol': Volume)
    requires FreshlyGrown(d, vol, d', vol') && DirectInode(d, vol.used)
    ensures Readable(d, vol.view) && Readable(d', vol'.view)
    ensures forall p :: 0 <= p < Blocks(d') * SECTOR_SIZE ==>
              ByteAt(d', vol'.view, p) == if p < Blocks(d) * SECTOR_SIZE then ByteAt(d, vol.view, p) else 0
  {
    forall p | 0 <= p < Blocks(d') * SECTOR_SIZE
      ensures ByteAt(d', vol'.view, p) == if p < Blocks(d) * SECTOR_SIZE then ByteAt(d, vol.view, p) else 0
    {
      var b := p / SECTOR_SIZE;
      if b < Blocks(d) {
        assert !NewBlock(d, d', d.direct[b]);
      } else {
        assert NewBlock(d, d', d'.direct[b]);
      }
    }
  }

  /**
   When a file grows, the gap it opens reads as zeros exactly when the bytes that the old last
   sector holds there were zero.
   */
  lemma GapIsZeroIff(d: InodeData, vol: Volume, d': InodeData, vol': Volume)
    requires FreshlyGrown(d, vol, d', vol') && DirectInode(d, vol.used) && d.length <= d'.length
    ensures Readable(d, vol.view) && Readable(d', vol'.view)
    ensures Content(d', vol'.view) == Content(d, vol.view) + Zeros(d'.length - d.length) <==>
            forall p :: d.length <= p < Min(d'.length, Blocks(d) * SECTOR_SIZE) ==> ByteAt(d, vol.view, p) == 0
  {
    GrownBytes(d, vol, d', vol');
    var c, z := Content(d', vol'.view), Content(d, vol.view) + Zeros(d'.length - d.length);
    if c == z {
      forall p | d.length <= p < Min(d'.length, Blocks(d) * SECTOR_SIZE) ensures ByteAt(d, vol.view, p) == 0 {
        assert c[p] == z[p];
      }
    }
  }

  lemma GrownCleanTail(d: InodeData, vol: Volume, d': InodeData, vol': Volume)
    requires FreshlyGrown(d, vol, d', vol') && DirectInode(d, vol.used) && d.length <= d'.length
    requires Readable(d, vol.view) && CleanTail(d, vol.view)
    ensures Readable(d', vol'.view) && CleanTail(d', vol'.view)
  {
    GrownBytes(d, vol, d', vol');
  }

  /** What a write of data at offset means for a plain byte sequence that it leaves n bytes long. */
  function Written(c: seq<byte>, n: nat, offset: nat, data: seq<byte>): seq<byte>
    requires |c| <= n && (data != [] ==> offset + |data| <= n)
  {
    if data == [] then c + Zeros(n - |c|) else Splice(c + Zeros(n - |c|), offset, data)
  }

  /** The bytes of the result, one by one. */
  lemma WrittenByte(c: seq<byte>, n: nat, offset: nat, data: seq<byte>, p: nat)
    requires |c| <= n && (data != [] ==> offset + |data| <= n) && p < n
    ensures |Written(c, n, offset, data)| == n
    ensures Written(c, n, offset, data)[p] ==
            if offset <= p < offset + |data| then data[p - offset] else if p < |c| then c[p] else 0
  {
  }

  lemma StoredContent(d: InodeData, view: seq<Sector>, view': seq<Sector>, offset: nat, data: seq<byte>)
    requires Stored(d, view, view', offset, data) && (data != [] ==> offset + |data| <= d.length)
    ensures Content(d, view') == Written(Content(d, view), d.length, offset, data)
    ensures CleanTail(d, view) ==> CleanTail(d, view')
  {
  }

  /**
   What inode_write_at does to inode and volume: grow to offset + size as far as possible (log, giving
   mid), then store the w bytes that fit.
   */
  ghost predicate WriteOutcome(g: Growth, mid: Growth, g': Growth, offset: nat, data: seq<byte>, log: seq<Append>, w: nat) {
    && Extended(g, mid, offset + |data|, log)
    && g'.d == mid.d && g'.vol.used == mid.vol.used
    && w == Max(0, Min(|data|, mid.d.length - offset))
    && Stored(mid.d, mid.vol.view, g'.vol.view, offset, data[..w])
  }

  /**
   inode_write_at refines an assignment to a byte sequence: extending to offset + size and then
   storing what fits leaves the old bytes, zeros in any gap, and the data in its range.
   */
  lemma WriteRefines(g: Growth, mid: Growth, g': Growth, offset: nat, data: seq<byte>, log: seq<Append>, w: nat)
    requires DirectInode(g.d, g.vol.used) && WriteOutcome(g, mid, g', offset, data, log, w)
    requires offset + |data| <= DIRECT_BYTES
    requires Readable(g.d, g.vol.view) && CleanTail(g.d, g.vol.view)
    ensures DirectInode(g'.d, g'.vol.used) && Readable(g'.d, g'.vol.view) && g.d.length <= g'.d.length
    ensures Content(g'.d, g'.vol.view) == Written(Content(g.d, g.vol.view), g'.d.length, offset, data[..w])
    ensures CleanTail(g'.d, g'.vol.view)
  {
    hide FreshlyGrown, Extended;
    ExtendedLength(g, mid, offset + |data|, log);
    ExtendedDirect(g, mid, offset + |data|, log);
    ExtendedDirectInode(g, mid, offset + |data|, log);
    GrownCleanTail(g.d, g.vol, mid.d, mid.vol);
    GapIsZeroIff(g.d, g.vol, mid.d, mid.vol);
    StoredContent(mid.d, mid.vol.view, g'.vol.view, offset, data[..w]);
  }

  /** Such a write leaves any sector alone that was marked and is not a block of the file. */
  lemma WriteFrame(g: Growth, mid: Growth, g': Growth, offset: nat, data: seq<byte>, log: seq<Append>, w: nat, s: nat)
    requires DirectInode(g.d, g.vol.used) && WriteOutcome(g, mid, g', offset, data, log, w)
    requires offset + |data| <= DIRECT_BYTES
    requires s < |g.vol.used| && g.vol.used[s] && !OwnsBlock(g.d, s)
    ensures |g'.vol.used| == |g.vol.used| == |g'.vol.view| && g'.vol.used[s] && g'.vol.view[s] == g.vol.view[s]
  {
    ExtendedDirect(g, mid, offset + |data|, log);
    assert !NewBlock(g.d, mid.d, s);
    assert !OwnsSector(mid.d, mid.vol.view, s);
  }
}
