/**
 The 17.14 fixed-point arithmetic of priority-scheduler/lib/kernel/fixed-point.c as the scheduler uses
 it: q is always 14, quotients truncate toward zero, and every int result is taken modulo 2^32.
 */
module FixedPoint {
  import opened Machine

  /** 1 << 14, the fixed-point one. */
  const ONE := 16384

  const INT_MAX := 0x7FFF_FFFF

  predicate In32(x: int) { -INT_MAX - 1 <= x <= INT_MAX }

  /** Conversion to a 32-bit int. */
  function Wrap32(x: int): (r: int)
    ensures In32(r) && (r - x) % UINT32_MOD == 0
    ensures In32(x) ==> r == x
  {
    (x + INT_MAX + 1) % UINT32_MOD - INT_MAX - 1
  }

  /** Wrapping is invisible exactly on ints. */
  lemma Wrap32Exact(x: int)
    ensures Wrap32(x) == x <==> In32(x)
  {
  }

  function Trunc(x: int): int { Quot(x, ONE) }

  function Round(x: int): int { Quot(Wrap32(x + Quot((if x >= 0 then 1 else -1) * ONE, 2)), ONE) }

  function Reformat(x: int): int { Wrap32(Quot(x * ONE, ONE)) }

  function Add(x: int, y: int): int { Wrap32(x + y) }

  function Mul(x: int, y: int): int { Wrap32(Quot(x * y, ONE)) }

  function Div(x: int, y: int): int
    requires y > 0
  {
    Wrap32(Quot(x * ONE, y))
  }

  function AddInt(x: int, n: int): int { Wrap32(x + Wrap32(n * ONE)) }

  function SubInt(x: int, n: int): int { Wrap32(x - Wrap32(n * ONE)) }

  function MulInt(x: int, n: int): int { Wrap32(x * n) }

  function DivInt(x: int, n: int): int
    requires n > 0
  {
    Quot(x, n)
  }

  function IntSub(n: int, x: int): int { Wrap32(Wrap32(n * ONE) - x) }

  function IntDivInt(n: int, d: int): int
    requires d > 0
  {
    Wrap32(Quot(n * ONE, d))
  }

  /** Truncation loses less than one unit, toward zero. */
  lemma QuotBounds(x: int, d: int)
    requires d > 0
    ensures x >= 0 ==> 0 <= x - Quot(x, d) * d < d
    ensures x <= 0 ==> 0 <= Quot(x, d) * d - x < d
    ensures x >= 0 ==> Quot(x, d) >= 0
    ensures x <= 0 ==> Quot(x, d) <= 0
  {
  }

  lemma NonNegative(a: int, b: int)
    requires a >= 0 && b >= 0
    ensures a * b >= 0
  {
  }

  /** Multiplication by something non-negative keeps an order. */
  lemma MulOrder(a: int, b: int, c: int)
    requires a <= b && c >= 0
    ensures a * c <= b * c
  {
    NonNegative(b - a, c);
    assert (b - a) * c == b * c - a * c;
  }

  lemma MulStep(p: int, q: int, d: int)
    requires d > 0 && p > q
    ensures p * d >= q * d + d
  {
    MulOrder(q + 1, p, d);
    assert (q + 1) * d == q * d + d;
  }

  lemma QuotMonotone(x: int, y: int, d: int)
    requires d > 0 && x <= y
    ensures Quot(x, d) <= Quot(y, d)
  {
    QuotBounds(x, d);
    QuotBounds(y, d);
    if Quot(x, d) > Quot(y, d) {
      MulStep(Quot(x, d), Quot(y, d), d);
    }
  }

  /** fxp_round is the nearest integer, when it does not overflow. */
  lemma RoundIsNearest(x: int)
    requires In32(x) && In32(x + (if x >= 0 then ONE / 2 else -ONE / 2))
    ensures -ONE / 2 <= Round(x) * ONE - x <= ONE / 2
  {
  }

  /** What thread_get_load_avg and thread_get_recent_cpu return for x: 100 times x, rounded. */
  function Hundredfold(x: int): int { Round(MulInt(x, 100)) }

  ghost predicate IsNearest(r: int, y: int) { -ONE / 2 <= r * ONE - y <= ONE / 2 }

  /** It is the nearest integer exactly when neither the product nor the half added to it leaves 32 bits. */
  lemma HundredfoldIff(x: int)
    requires In32(x)
    ensures IsNearest(Hundredfold(x), 100 * x) <==> In32(100 * x + if x >= 0 then ONE / 2 else -ONE / 2)
  {
    if In32(100 * x + if x >= 0 then ONE / 2 else -ONE / 2) {
      RoundIsNearest(100 * x);
    } else {
      TooLarge(100 * x, Wrap32(100 * x));
    }
  }

  /** A multiple of 100 whose half-adjusted value does not fit is not approximated by its wrapped form. */
  lemma TooLarge(y: int, w: int)
    requires y % 100 == 0 && w == Wrap32(y) && !In32(y + if y >= 0 then ONE / 2 else -ONE / 2)
    ensures !IsNearest(Round(w), y)
  {
    var v := Wrap32(w + if w >= 0 then ONE / 2 else -ONE / 2);
    QuotBounds(v, ONE);
    assert Round(w) == Quot(v, ONE);
  }
}
