/** The open_inodes list of file-system/filesys/inode.c: opening, removing and closing. */
module InodeTables {
  import opened Machine
  import opened FreeMapFiles
  import opened InodeMap
  import opened FileContent
  import opened InodeCodec
  import opened Inodes

  class InodeTable {
    const fs: FileSystem
    var openInodes: seq<Inode>

    /** Each sector is open at most once, and everything listed has an opener. */
    ghost predicate Valid()
      reads this, openInodes
    {
      && (forall inode :: inode in openInodes ==> inode.openCnt > 0)
      && (forall i, j :: 0 <= i < j < |openInodes| ==> openInodes[i].sector != openInodes[j].sector)
    }

    constructor (fs: FileSystem)
      ensures this.fs == fs && openInodes == [] && Valid()
    {
      this.fs := fs;
      openInodes := [];
    }

    ghost predicate IsOpen(sector: int)
      reads this
    {
      exists i :: 0 <= i < |openInodes| && openInodes[i].sector == sector
    }

    /** Opening a sector twice gives the same inode; parameter memory says whether malloc succeeded. */
    method InodeOpen(sector: uint32, memory: bool) returns (r: Inode?)
      requires Valid() && fs.Valid() && sector < |fs.Vol().view|
      modifies this, openInodes, fs.Repr()
      ensures Valid() && fs.Valid() && fs.Vol() == old(fs.Vol()) && fs.cache.View() == old(fs.cache.View())
      ensures old(IsOpen(sector)) ==>
                && openInodes == old(openInodes) && r in openInodes
                && r.sector == sector && r.openCnt == old(r.openCnt) + 1 && r.removed == old(r.removed)
      ensures !old(IsOpen(sector)) && !memory ==> r == null && openInodes == old(openInodes)
      ensures !old(IsOpen(sector)) && memory ==>
                && r != null && fresh(r) && openInodes == [r] + old(openInodes)
                && r.sector == sector && r.openCnt == 1 && !r.removed && r.denyWriteCnt == 0
                && fresh(r.data) && r.data.Data() == DecodeInode(fs.cache.View()[sector])
      ensures forall i :: i in old(openInodes) && i != r ==> i.openCnt == old(i.openCnt) && i.removed == old(i.removed)
    {
      hide FileSystem.Valid, FileSystem.Vol;
      var k := 0;
      while k < |openInodes|
        invariant 0 <= k <= |openInodes|
        invariant forall j :: 0 <= j < k ==> openInodes[j].sector != sector
      {
        var inode := openInodes[k];
        if inode.sector == sector {
          inode.openCnt := inode.openCnt + 1;
          return inode;
        }
        k := k + 1;
      }
      if !memory {
        return null;
      }
      ghost var view := fs.cache.View();
      var bytes := fs.Get(sector, SECTOR_SIZE, 0);
      assert bytes == view[sector];
      var data := new DiskInode.Load(bytes);
      r := new Inode(sector, data);
      openInodes := [r] + openInodes;
    }

    method InodeRemove(inode: Inode)
      requires Valid() && inode in openInodes
      modifies inode`removed
      ensures inode.removed && Valid()
    {
      inode.removed := true;
    }

    /**
     The last close takes the inode off the list and, if it was removed, gives back its sector and
     each of its data sectors, and nothing else.
     */
    method InodeClose(inode: Inode)
      requires Valid() && fs.Valid() && inode in openInodes
      requires inode.removed && inode.openCnt == 1 ==> Releasable(inode)
      modifies this, inode, fs.Repr()
      ensures Valid() && fs.Valid() && fs.Vol().view == old(fs.Vol()).view
      ensures inode.openCnt == old(inode.openCnt) - 1
      ensures inode.openCnt > 0 ==> openInodes == old(openInodes)
      ensures inode.openCnt == 0 ==> !IsOpen(inode.sector)
      ensures forall i :: i in openInodes <==> i in old(openInodes) && (i != inode || inode.openCnt > 0)
      ensures inode.openCnt > 0 || !inode.removed ==> fs.Vol().used == old(fs.Vol()).used
      ensures inode.openCnt == 0 && inode.removed ==>
                old(Releasable(inode))
                && ReleasedInode(inode.sector, old(inode.data.Data()), old(fs.Vol()).view, old(fs.Vol()).used, fs.Vol().used)
    {
      hide FileSystem.Valid, FileSystem.Vol, Mapped, OffFile, ReleasedInode;
      inode.openCnt := inode.openCnt - 1;
      if inode.openCnt == 0 {
        Unlist(inode);
        if inode.removed {
          GiveBack(inode);
        }
      }
    }

    /** The sectors of a removed inode. */
    method GiveBack(inode: Inode)
      requires fs.Valid() && Releasable(inode)
      modifies fs.Repr()
      ensures fs.Valid() && fs.Vol().view == old(fs.Vol()).view
      ensures ReleasedInode(inode.sector, inode.data.Data(), old(fs.Vol()).view, old(fs.Vol()).used, fs.Vol().used)
    {
      hide FileSystem.Valid, FileSystem.Vol;
      fs.FreeMapRelease(inode.sector);
      fs.ReleaseBlocks(inode.data);
    }

    /** list_remove. */
    method Unlist(inode: Inode)
      requires inode in openInodes
      requires forall i, j :: 0 <= i < j < |openInodes| ==> openInodes[i].sector != openInodes[j].sector
      modifies `openInodes
      ensures !IsOpen(inode.sector)
      ensures forall i :: i in openInodes <==> i in old(openInodes) && i != inode
      ensures forall i, j :: 0 <= i < j < |openInodes| ==> openInodes[i].sector != openInodes[j].sector
    {
      var k :| 0 <= k < |openInodes| && openInodes[k] == inode;
      ghost var was := openInodes;
      openInodes := openInodes[..k] + openInodes[k + 1..];
      assert forall j :: 0 <= j < |openInodes| ==> openInodes[j] == if j < k then was[j] else was[j + 1];
      assert forall j :: 0 <= j < |was| && j != k ==> was[j] == openInodes[if j < k then j else j - 1];
    }

    ghost predicate Releasable(inode: Inode)
      reads inode, inode.data, inode.data.direct, inode.data.indirect
      reads fs, fs.freeMap.bits, fs.cache, fs.cache.entries
    {
      && inode.data.Valid() && Mapped(inode.data.Data(), fs.Vol()) && OffFile(inode.data.Data(), fs.Vol().view, fs.mapFile)
      && inode.sector < |fs.Vol().used| && fs.Vol().used[inode.sector] && inode.sector !in fs.mapFile
      && !OwnsSector(inode.data.Data(), fs.Vol().view, inode.sector)
      && (forall c :: NUM_DIRECT <= c < Blocks(inode.data.Data()) ==> inode.data.Data().indirect[Group(c)] != inode.sector)
    }
  }

  /** The free map after a removed inode's last close. */
  ghost predicate ReleasedInode(sector: nat, d: InodeData, view: seq<Sector>, used: seq<bool>, used': seq<bool>) {
    && Readable(d, view) && |used'| == |used|
    && forall s :: 0 <= s < |used| ==> (used'[s] <==> used[s] && s != sector && !OwnsSector(d, view, s))
  }

  /** The index sectors of a removed file are never given back. */
  lemma IndexSectorsLeak(sector: nat, d: InodeData, vol: Volume, used': seq<bool>, c: nat)
    requires Mapped(d, vol) && ReleasedInode(sector, d, vol.view, vol.used, used')
    requires NUM_DIRECT <= c < Blocks(d) && vol.used[d.indirect[Group(c)]] && d.indirect[Group(c)] != sector
    ensures used'[d.indirect[Group(c)]]
  {
    assert !OwnsSector(d, vol.view, d.indirect[Group(c)]);
  }

  /**
   The last close of a removed file gives back every sector the file took exactly if the file has at most
   444 blocks: its first index group shares sector 0, which is nobody's to take.
   */
  lemma CloseLeavesNothingIff(sector: nat, d: InodeData, vol: Volume, used': seq<bool>)
    requires IndexOk(Growth(d, vol)) && Mapped(d, vol) && ReleasedInode(sector, d, vol.view, vol.used, used')
    requires forall k :: 0 < k < GroupsUsed(Blocks(d)) ==> d.indirect[k] != sector
    ensures sector < |used'| ==> !used'[sector]
    ensures forall b :: 0 <= b < Blocks(d) ==> !used'[Entry(d, vol.view, b)]
    ensures (forall k :: 0 < k < GroupsUsed(Blocks(d)) ==> !used'[d.indirect[k]]) <==> Blocks(d) <= NUM_DIRECT + INDIRECT_LEN
  {
    assert forall b :: 0 <= b < Blocks(d) ==> OwnsSector(d, vol.view, Entry(d, vol.view, b));
    if Blocks(d) > NUM_DIRECT + INDIRECT_LEN {
      var c := NUM_DIRECT + INDIRECT_LEN;
      assert Group(c) == 1 && 1 < GroupsUsed(Blocks(d));
      IndexSectorsLeak(sector, d, vol, used', c);
    }
  }
}
