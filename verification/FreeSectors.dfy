/** The bitmap of used sectors of file-system/filesys/free-map.c. */
module FreeSectors {
  import opened Machine

  const FREE_MAP_SECTOR := 0
  const ROOT_DIR_SECTOR := 1

  /** The sector a first-fit scan finds: unused, with every lower sector used. */
  ghost predicate FirstFree(used: seq<bool>, s: int) {
    0 <= s < |used| && !used[s] && forall j :: 0 <= j < s ==> used[j]
  }

  class FreeMap {
    const bits: array<bool>

    ghost function Used(): seq<bool>
      reads bits
    {
      bits[..]
    }

    /** free_map_init on a device of the given number of sectors. */
    constructor (size: nat)
      requires size >= 2
      ensures fresh(bits)
      ensures |Used()| == size
      ensures forall s :: 0 <= s < size ==> (Used()[s] <==> s == FREE_MAP_SECTOR || s == ROOT_DIR_SECTOR)
    {
      bits := new bool[size](_ => false);
      new;
      bits[FREE_MAP_SECTOR] := true;
      bits[ROOT_DIR_SECTOR] := true;
    }

    /**
     free_map_allocate. Parameter written says whether the free map file took the new bitmap (it
     counts as written while there is no such file): if not, the bit is put back.
     */
    method Allocate(written: bool) returns (r: Option<nat>)
      modifies bits
      ensures r.None? ==> Used() == old(Used())
      ensures r.None? <==> !written || forall s :: 0 <= s < |Used()| ==> old(Used())[s]
      ensures r.Some? ==> FirstFree(old(Used()), r.value) && Used() == old(Used())[r.value := true]
    {
      var s := 0;
      while s < bits.Length && bits[s]
        invariant 0 <= s <= bits.Length
        invariant forall j :: 0 <= j < s ==> bits[j]
        invariant Used() == old(Used())
      {
        s := s + 1;
      }
      if s == bits.Length {
        return None;
      }
      bits[s] := true;
      if !written {
        bits[s] := false;
        assert Used() == old(Used());
        return None;
      }
      return Some(s);
    }

    /** free_map_release; its ASSERT is the second precondition. */
    method Release(sector: nat)
      requires sector < |Used()|
      requires Used()[sector]
      modifies bits
      ensures Used() == old(Used())[sector := false]
    {
      bits[sector] := false;
    }
  }
}
