/**
 How far a file of file-system/filesys/inode.c can grow, by counting: the unused sectors whose numbers
 fit 16 bits against the sectors that the new blocks and their index sectors take. Nothing here refers
 to the steps by which the code takes them.
 */
module Space {
  import opened Machine
  import opened FreeSectors
  import opened InodeMap

  const MAX_BLOCKS := MAX_INODE_LEN / SECTOR_SIZE

  /** The sectors allocate_short can hand out. */
  ghost function Unused(used: seq<bool>): set<int> {
    set s: int | 0 <= s < |used| && s <= UINT16_MAX && !used[s]
  }

  ghost function Spare(used: seq<bool>): nat { |Unused(used)| }

  lemma NoneUnused(used: seq<bool>)
    requires forall s :: 0 <= s < |used| ==> used[s]
    ensures Spare(used) == 0
  {
    assert Unused(used) == {};
  }

  /** If the first unused sector does not fit 16 bits, none does. */
  lemma NoneFits(used: seq<bool>, s: nat)
    requires FirstFree(used, s) && s > UINT16_MAX
    ensures Spare(used) == 0
  {
    assert Unused(used) == {};
  }

  /** Marking an unused sector leaves one less. */
  lemma CountMarked(used: seq<bool>, s: nat)
    requires s < |used| && s <= UINT16_MAX && !used[s]
    ensures Spare(used) > 0 && Spare(used[s := true]) == Spare(used) - 1
  {
    assert Unused(used) == Unused(used[s := true]) + {s};
  }

  lemma CountReleased(used: seq<bool>, s: nat)
    requires s < |used| && s <= UINT16_MAX && used[s]
    ensures Spare(used[s := false]) == Spare(used) + 1
  {
    CountMarked(used[s := false], s);
    assert used[s := false][s := true] == used;
  }

  // ---------------------------------------------------------------- what growth costs

  /** The sectors the block with number n takes: two for the first block of a group other than the first. */
  function Need(n: nat): nat {
    if n > NUM_DIRECT && (n - NUM_DIRECT) % INDIRECT_LEN == 0 then 2 else 1
  }

  /** The sectors the first n blocks take, one for each further group included. */
  function Cost(n: nat): nat {
    n + if n <= NUM_DIRECT + INDIRECT_LEN then 0 else DivRoundUp(n - NUM_DIRECT, INDIRECT_LEN) - 1
  }

  lemma NextCost(n: nat)
    ensures Cost(n + 1) == Cost(n) + Need(n)
  {
  }

  lemma {:induction false} CostGrows(n: nat, m: nat)
    requires n <= m
    ensures Cost(m) - Cost(n) >= m - n
    decreases m - n
  {
    if n < m {
      CostGrows(n, m - 1);
      NextCost(m - 1);
    }
  }

  /** What a file can draw on: the unused sectors, as long as the free map can be saved. */
  datatype Supply = Supply(spare: nat, saves: bool) {
    function Less(n: int): Supply
      requires n <= spare
    {
      Supply(spare - n, saves)
    }
  }

  /** A file of the given length can become the longer length asked for. */
  predicate HasRoom(from: nat, length: int, supply: Supply) {
    && length <= MAX_INODE_LEN
    && (length <= RoundUp(from, SECTOR_SIZE)
        || (supply.saves && Cost(DivRoundUp(length, SECTOR_SIZE)) - Cost(DivRoundUp(from, SECTOR_SIZE)) <= supply.spare))
  }

  /** A new file within the direct range needs its data sectors. */
  lemma DirectRoom(length: nat, supply: Supply)
    requires length <= DIRECT_BYTES && supply.saves
    ensures length == 0 || HasRoom(0, length, supply) <==> DivRoundUp(length, SECTOR_SIZE) <= supply.spare
  {
  }

  /** A file of n blocks cannot get beyond r. */
  predicate StopsAt(n: nat, r: nat, supply: Supply) {
    && n <= r <= MAX_BLOCKS && Cost(r) - Cost(n) <= supply.spare && (n < r ==> supply.saves)
    && (r == MAX_BLOCKS || !supply.saves || Cost(r + 1) - Cost(n) > supply.spare)
  }

  /** The length extend_disk ends with. */
  predicate GrowsTo(from: nat, length: int, supply: Supply, to: int) {
    if length <= from then to == from
    else if HasRoom(from, length, supply) then to == length
    else 0 <= to < length && to % SECTOR_SIZE == 0 && StopsAt(DivRoundUp(from, SECTOR_SIZE), to / SECTOR_SIZE, supply)
  }

  /** The growth from n to m blocks is paid for. */
  ghost predicate Spent(n: nat, stock: Supply, m: nat, stock': Supply) {
    && n <= m && stock'.saves == stock.saves && (n < m ==> stock.saves)
    && stock'.spare + Cost(m) == stock.spare + Cost(n)
  }

  lemma Unspent(n: nat, stock: Supply)
    ensures Spent(n, stock, n, stock)
  {
  }

  /** Having paid for m blocks, the file can pay for one more, or it stops. */
  lemma SpentMore(n: nat, stock: Supply, m: nat, now: Supply)
    requires Spent(n, stock, m, now) && m <= MAX_BLOCKS
    ensures
      if m < MAX_BLOCKS && now.saves && Need(m) <= now.spare then Spent(n, stock, m + 1, now.Less(Need(m)))
      else StopsAt(n, m, stock)
  {
    NextCost(m);
  }

  /** A file that stops at r gets nowhere beyond. */
  lemma NotBeyond(n: nat, r: nat, m: nat, supply: Supply)
    requires StopsAt(n, r, supply) && r < m
    ensures !StopsAt(n, m, supply)
  {
    CostGrows(r + 1, m);
  }

  lemma StopIsUnique(n: nat, r: nat, r': nat, supply: Supply)
    requires StopsAt(n, r, supply) && StopsAt(n, r', supply)
    ensures r == r'
  {
    hide StopsAt;
    if r < r' {
      NotBeyond(n, r, r', supply);
    } else if r' < r {
      NotBeyond(n, r', r, supply);
    }
  }

  /** The outcome is determined; it is the length asked for exactly if that fits. */
  lemma GrowthIsDetermined(from: nat, length: int, supply: Supply, to: int, to': int)
    requires GrowsTo(from, length, supply, to) && GrowsTo(from, length, supply, to')
    ensures to == to'
    ensures to >= length <==> length <= from || HasRoom(from, length, supply)
  {
    if from < length && !HasRoom(from, length, supply) {
      StopIsUnique(DivRoundUp(from, SECTOR_SIZE), to / SECTOR_SIZE, to' / SECTOR_SIZE, supply);
    }
  }

  lemma NoGrowth(from: nat, length: int, supply: Supply)
    requires length <= from
    ensures GrowsTo(from, length, supply, from)
  {
  }

  /**
   The loop of extend_disk starts with the length rounded up and ends at or past the length asked for, but
   within its last sector, or short of it where the file cannot get further.
   */
  lemma GrownSoFar(was: InodeData, length: int, supply: Supply, d: InodeData, now: Supply)
    requires 0 <= was.length < length && 0 <= d.length <= MAX_INODE_LEN && d.length % SECTOR_SIZE == 0
    requires d.length - SECTOR_SIZE < length || d.length == RoundUp(was.length, SECTOR_SIZE)
    requires Spent(Blocks(was), supply, Blocks(d), now)
    requires d.length < length ==> StopsAt(Blocks(was), Blocks(d), supply)
    ensures GrowsTo(was.length, length, supply, Min(d.length, length))
  {
    var r, m := Blocks(d), DivRoundUp(length, SECTOR_SIZE);
    assert r == d.length / SECTOR_SIZE;
    if d.length >= length {
      assert m <= r;
    } else if length <= MAX_INODE_LEN {
      CostGrows(r + 1, m);
    }
  }
}
