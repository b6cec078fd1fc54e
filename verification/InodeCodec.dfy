/** struct inode_disk as the 512 little-endian bytes of its sector. */
module InodeCodec {
  import opened Machine
  import opened InodeMap

  function Encode16(xs: seq<uint16>): (b: seq<byte>)
    ensures |b| == 2 * |xs|
  {
    seq(2 * |xs|, i requires 0 <= i < 2 * |xs| => if i % 2 == 0 then xs[i / 2] % 256 else xs[i / 2] / 256)
  }

  function Decode16(b: seq<byte>): (xs: seq<uint16>)
    ensures |xs| == |b| / 2
  {
    seq(|b| / 2, k requires 0 <= k < |b| / 2 => FromLe16(b[2 * k..2 * k + 2]))
  }

  lemma Decode16Encode16(xs: seq<uint16>)
    ensures Decode16(Encode16(xs)) == xs
  {
    forall k | 0 <= k < |xs| ensures Decode16(Encode16(xs))[k] == xs[k] {
      assert Encode16(xs)[2 * k] == xs[k] % 256 && Encode16(xs)[2 * k + 1] == xs[k] / 256;
    }
  }

  function EncodeInode(d: InodeData): Sector
    requires |d.direct| == NUM_DIRECT && |d.indirect| == NUM_INDIRECT && 0 <= d.length <= MAX_INODE_LEN
  {
    Le32(d.length) + Le32(INODE_MAGIC) + Encode16(d.direct) + Encode16(d.indirect)
  }

  function DecodeInode(s: Sector): (d: InodeData)
    ensures |d.direct| == NUM_DIRECT && |d.indirect| == NUM_INDIRECT
  {
    var n := FromLe32(s[..4]);
    InodeData(if n < 0x8000_0000 then n else n - UINT32_MOD,
              Decode16(s[8..8 + 2 * NUM_DIRECT]),
              Decode16(s[8 + 2 * NUM_DIRECT..]))
  }

  /** What inode_create writes, inode_open reads back. */
  lemma DecodeEncode(d: InodeData)
    requires WfInode(d)
    ensures DecodeInode(EncodeInode(d)) == d
  {
    var s := EncodeInode(d);
    Le32RoundTrip(d.length);
    Decode16Encode16(d.direct);
    Decode16Encode16(d.indirect);
    assert s[..4] == Le32(d.length);
    assert s[8..8 + 2 * NUM_DIRECT] == Encode16(d.direct);
    assert s[8 + 2 * NUM_DIRECT..] == Encode16(d.indirect);
  }

  /** Where each field lies in the sector. */
  lemma InodeLayout(d: InodeData, k: nat)
    requires WfInode(d)
    ensures FromLe32(EncodeInode(d)[..4]) == d.length && FromLe32(EncodeInode(d)[4..8]) == INODE_MAGIC
    ensures k < NUM_DIRECT ==> FromLe16(EncodeInode(d)[8 + 2 * k..10 + 2 * k]) == d.direct[k]
    ensures k < NUM_INDIRECT ==>
              var at := 8 + 2 * NUM_DIRECT + 2 * k;
              FromLe16(EncodeInode(d)[at..at + 2]) == d.indirect[k]
  {
    var s := EncodeInode(d);
    Le32RoundTrip(d.length);
    Le32RoundTrip(INODE_MAGIC);
    assert s[..4] == Le32(d.length) && s[4..8] == Le32(INODE_MAGIC);
    if k < NUM_DIRECT {
      assert s[8 + 2 * k..10 + 2 * k] == Encode16(d.direct)[2 * k..2 * k + 2];
    }
    if k < NUM_INDIRECT {
      var at := 8 + 2 * NUM_DIRECT + 2 * k;
      assert s[at..at + 2] == Encode16(d.indirect)[2 * k..2 * k + 2];
    }
  }
}
