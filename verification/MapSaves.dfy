/**
 The free map's file when several threads allocate and release at once (file-system/filesys/free-map.c:27-50):
 each flips its bit, without a lock, and then writes the bitmap as it finds it, block by block, under the lock of
 the file's inode. Whatever the order, the file is right again as soon as no thread is in between.
 */
module MapSaves {
  import opened Machine
  import opened FreeMapFiles

  datatype Pc =
    | Idle
    | Flipped            // about to take the lock of the map's inode
    | Saving(k: nat)     // k blocks written

  /** file: the contents of the map's blocks. */
  datatype State = State(used: seq<bool>, file: seq<seq<byte>>, lock: Option<nat>, pcs: seq<Pc>)

  function BlockCount(n: nat): nat { DivRoundUp(BitmapSize(n), SECTOR_SIZE) }

  /** Block k of the bytes of the bitmap. */
  function MapBlock(used: seq<bool>, k: nat): seq<byte>
    requires k < BlockCount(|used|)
  {
    BitmapBytes(used)[k * SECTOR_SIZE..Min((k + 1) * SECTOR_SIZE, BitmapSize(|used|))]
  }

  ghost predicate Flips(st: State, t: nat, x: nat, b: bool, st': State)
    requires t < |st.pcs|
  {
    x < |st.used| && st' == st.(used := st.used[x := b], pcs := st.pcs[t := Flipped])
  }

  ghost predicate Step(st: State, t: nat, st': State) {
    && t < |st.pcs| && |st.file| == BlockCount(|st.used|)
    && match st.pcs[t]
       case Idle => exists x: nat, b: bool :: Flips(st, t, x, b, st')
       case Flipped => st.lock == None && st' == st.(lock := Some(t), pcs := st.pcs[t := Saving(0)])
       case Saving(k) =>
         if k < |st.file| then st' == st.(file := st.file[k := MapBlock(st.used, k)], pcs := st.pcs[t := Saving(k + 1)])
         else st' == st.(lock := None, pcs := st.pcs[t := Idle])
  }

  /** The thread has yet to write block k. */
  predicate Owes(pc: Pc, k: nat) { pc.Flipped? || (pc.Saving? && pc.k <= k) }

  ghost predicate Owed(pcs: seq<Pc>, k: nat) { exists t :: 0 <= t < |pcs| && Owes(pcs[t], k) }

  /** A block that no thread has yet to write is that of the bitmap. */
  ghost predicate Inv(st: State) {
    && |st.file| == BlockCount(|st.used|)
    && (forall k: nat :: k < |st.file| && !Owed(st.pcs, k) ==> st.file[k] == MapBlock(st.used, k))
  }

  lemma StepKeeps(st: State, t: nat, st': State)
    requires Inv(st) && Step(st, t, st')
    ensures Inv(st')
  {
    hide MapBlock;
    forall k: nat | k < |st'.file| && !Owed(st'.pcs, k) ensures st'.file[k] == MapBlock(st'.used, k) {
      assert !Owes(st'.pcs[t], k);
      if Owed(st.pcs, k) {
        var u :| 0 <= u < |st.pcs| && Owes(st.pcs[u], k);
        assert !Owes(st'.pcs[u], k);
      }
    }
  }

  ghost predicate Run(states: seq<State>, who: seq<nat>) {
    && |states| == |who| + 1 && Inv(states[0])
    && forall k :: 0 <= k < |who| ==> Step(states[k], who[k], states[k + 1])
  }

  lemma {:induction false} RunsKeepInv(states: seq<State>, who: seq<nat>, n: nat)
    requires Run(states, who) && n < |states|
    ensures Inv(states[n]) && |states[n].used| == |states[0].used|
    decreases n
  {
    if n > 0 {
      RunsKeepInv(states, who, n - 1);
      StepKeeps(states[n - 1], who[n - 1], states[n]);
    }
  }

  /** From a file that is right, after any interleaving that leaves no thread at work every block of the file is right. */
  lemma FileIsRight(states: seq<State>, who: seq<nat>, n: nat)
    requires Run(states, who) && n < |states| && (forall t :: 0 <= t < |states[n].pcs| ==> states[n].pcs[t] == Idle)
    ensures |states[n].file| == BlockCount(|states[n].used|)
    ensures forall k: nat :: k < |states[n].file| ==> states[n].file[k] == MapBlock(states[n].used, k)
  {
    RunsKeepInv(states, who, n);
    assert forall k :: !Owed(states[n].pcs, k);
  }
}
