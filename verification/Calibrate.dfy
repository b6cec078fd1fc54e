/**
 timer_calibrate of priority-scheduler/devices/timer.c. too_many_loops is taken to be a threshold: a loop
 count takes longer than a tick exactly when it is more than limit.
 */
module Calibrate {
  import opened Machine

  function Pow2(k: nat): (p: nat)
    ensures p >= 1
  {
    if k == 0 then 1 else 2 * Pow2(k - 1)
  }

  /** Bitwise or of two numbers. */
  function Or(a: nat, b: nat): nat {
    if a == 0 && b == 0 then 0 else 2 * Or(a / 2, b / 2) + Max(a % 2, b % 2)
  }

  lemma {:induction false} OrZero(a: nat)
    ensures Or(a, 0) == a
  {
    if a > 0 {
      OrZero(a / 2);
    }
  }

  /** The k low bits of a are clear. */
  predicate Aligned(a: nat, k: nat) {
    k == 0 || (a % 2 == 0 && Aligned(a / 2, k - 1))
  }

  /** Bits that do not overlap are added. */
  lemma {:induction false} OrIsAddition(a: nat, b: nat, k: nat)
    requires Aligned(a, k) && b < Pow2(k)
    ensures Or(a, b) == a + b
    decreases k
  {
    if k == 0 {
      OrZero(a);
    } else if a > 0 || b > 0 {
      OrIsAddition(a / 2, b / 2, k - 1);
    }
  }

  lemma {:induction false} AddedBit(a: nat, k: nat)
    requires Aligned(a, k + 1)
    ensures Aligned(a, k) && Aligned(a + Pow2(k), k)
    decreases k
  {
    if k > 0 {
      AddedBit(a / 2, k - 1);
      assert (a + Pow2(k)) / 2 == a / 2 + Pow2(k - 1);
    }
  }

  lemma NextBit(a: nat, k: nat)
    requires Aligned(a, k + 1)
    ensures Or(a, Pow2(k)) == a + Pow2(k) && Aligned(a, k) && Aligned(a + Pow2(k), k)
  {
    OrIsAddition(a, Pow2(k), k + 1);
    AddedBit(a, k);
  }

  /** What the count is once every bit down to k has been tried. */
  ghost predicate Refined(loops: nat, k: nat, limit: nat) {
    && Aligned(loops, k) && loops >= 1024
    && (limit < 1024 ==> loops == 1024)
    && (limit >= 1024 ==> loops <= limit < loops + Pow2(k))
  }

  lemma RefineBit(loops: nat, k: nat, limit: nat, next: nat)
    requires Refined(loops, k + 1, limit)
    requires next == if TooManyLoops(Or(loops, Pow2(k)), limit) then loops else Or(loops, Pow2(k))
    ensures Refined(next, k, limit)
  {
    NextBit(loops, k);
  }

  lemma Halves(k: nat)
    requires k > 0
    ensures Pow2(k) / 2 == Pow2(k - 1)
  {
  }

  lemma {:induction false} PowerIsAligned(k: nat)
    ensures Aligned(Pow2(k), k)
  {
    if k > 0 {
      Halves(k);
      PowerIsAligned(k - 1);
    }
  }

  lemma Powers()
    ensures Pow2(9) == 512 && Pow2(10) == 1024 && Pow2(30) == 0x4000_0000 && Pow2(31) == 0x8000_0000
  {
    assert Pow2(10) == 1024;
    PowerSplits(20, 10);
    PowerSplits(30, 10);
  }

  /** loops << 1 in 32 bits. */
  function ShiftedLeft(loops: uint32): (r: uint32)
    ensures r == if loops < 0x8000_0000 then 2 * loops else 2 * loops - UINT32_MOD
  {
    loops * 2 % UINT32_MOD
  }

  predicate TooManyLoops(loops: nat, limit: nat) { loops > limit }

  /** The first loop. None means its assertion failed: the doubling wrapped to zero. */
  method LargestPower(limit: uint32) returns (r: Option<nat>, ghost h: nat)
    ensures r.None? <==> limit >= 0x8000_0000
    ensures r.Some? ==> h >= 10 && r.value == Pow2(h) && limit < 2 * r.value && (r.value <= limit || (h == 10 && limit < 1024))
  {
    var loops := 1024;
    h := 10;
    Powers();
    while !TooManyLoops(ShiftedLeft(loops), limit)
      invariant 10 <= h <= 31 && loops == Pow2(h) && (loops <= 0x4000_0000 || loops == 0x8000_0000)
      invariant loops <= limit || h == 10
      decreases 0x8000_0000 - loops
    {
      if loops == 0x8000_0000 {
        return None, h;
      }
      PowerGrows(h, 31);
      loops := loops * 2;
      h := h + 1;
      PowerGrows(h, 30);
    }
    r := Some(loops);
  }

  /**
   The limit truncated to ten significant bits: the only number within high_bit / 2^9 of the limit whose
   lower bits are clear. The comment in the code says eight bits after the first; it refines nine.
   */
  method TimerCalibrate(limit: uint32) returns (r: Option<nat>, ghost high: nat, ghost h: nat)
    ensures r.None? <==> limit >= 0x8000_0000
    ensures r.Some? && limit < 1024 ==> r.value == 1024
    ensures r.Some? && limit >= 1024 ==>
              && high <= limit < 2 * high && h >= 10 && high == Pow2(h)
              && r.value <= limit < r.value + high / 512 && Aligned(r.value, h - 9)
  {
    var first: Option<nat>;
    high := 0;
    first, h := LargestPower(limit);
    if first == None {
      return None, high, h;
    }
    high := first.value;
    var loops := RefineLoops(limit, first.value, h);
    PowerShifts(h);
    r := Some(loops);
  }

  /** The second loop: each bit is tried in turn and kept if the count stays within the limit. */
  method RefineLoops(limit: uint32, highBit: nat, ghost h: nat) returns (loops: nat)
    requires h >= 10 && highBit == Pow2(h) && limit < 2 * highBit && (highBit <= limit || (h == 10 && limit < 1024))
    ensures limit < 1024 ==> loops == 1024
    ensures limit >= 1024 ==> loops <= limit < loops + Pow2(h - 9) && Aligned(loops, h - 9)
  {
    loops := highBit;
    var testBit := highBit / 2;
    var lastBit := highBit / 1024;
    ghost var k := h - 1;
    PowerShifts(h);
    PowerIsAligned(h);
    Powers();
    while testBit != lastBit
      invariant h - 10 <= k < h && testBit == Pow2(k)
      invariant Refined(loops, k + 1, limit)
      decreases k
    {
      assert k > h - 10;
      ghost var before := loops;
      if !TooManyLoops(Or(loops, testBit), limit) {
        loops := Or(loops, testBit);
      }
      RefineBit(before, k, limit, loops);
      Halves(k);
      testBit := testBit / 2;
      k := k - 1;
    }
    PowerGrows(h - 10, k);
  }

  lemma {:induction false} PowerGrows(a: nat, b: nat)
    ensures a < b ==> Pow2(a) < Pow2(b)
    ensures b < a ==> Pow2(b) < Pow2(a)
  {
    if a < b {
      PowerGrows(a, b - 1);
    } else if b < a {
      PowerGrows(a - 1, b);
    }
  }

  lemma PowerShifts(h: nat)
    requires h >= 10
    ensures Pow2(h) / 2 == Pow2(h - 1) && Pow2(h) / 512 == Pow2(h - 9) && Pow2(h) / 1024 == Pow2(h - 10)
  {
    PowerSplits(h, 9);
    PowerSplits(h, 10);
    Powers();
  }

  lemma {:induction false} PowerSplits(h: nat, d: nat)
    requires d <= h
    ensures Pow2(h) == Pow2(h - d) * Pow2(d)
  {
    if d > 0 {
      PowerSplits(h, d - 1);
    }
  }
}
