/** Powers of two, shifts, masks, and the least bit width that holds a value. */
module Shifts {

  function Pow2(n: nat): (r: nat)
    ensures r >= 1
  {
    if n == 0 then 1 else 2 * Pow2(n - 1)
  }

  /** v << n.  (With v in the measure, a constant n is not unrolled by the verifier.) */
  function Shl(v: int, n: nat): (r: int)
    ensures v >= 0 ==> r >= 0
    decreases n, v
  {
    if n == 0 then v else 2 * Shl(v, n - 1)
  }

  /** v >> n, rounding down as an arithmetic shift does. */
  function Shr(v: int, n: nat): (r: int)
    ensures v >= 0 ==> r >= 0
    decreases n, v
  {
    if n == 0 then v else Shr(v / 2, n - 1)
  }

  /** v & (2^n - 1), the low n bits of v in two's complement. */
  function Low(v: int, n: nat): (r: nat)
    ensures r < Pow2(n)
    decreases n, v
  {
    if n == 0 then 0 else 2 * Low(v / 2, n - 1) + v % 2
  }

  lemma {:induction false} Pow2Adds(m: nat, n: nat)
    ensures Pow2(m + n) == Pow2(m) * Pow2(n)
  {
    if n == 0 {
    } else {
      Pow2Adds(m, n - 1);
      MulAssoc(Pow2(m), Pow2(n - 1));
    }
  }

  lemma {:induction false} MulAssoc(x: int, y: int)
    ensures 2 * (x * y) == x * (2 * y)
  {
  }

  lemma {:induction false} Pow2Monotone(m: nat, n: nat)
    requires m <= n
    ensures Pow2(m) <= Pow2(n)
    decreases n - m
  {
    if m < n { Pow2Monotone(m + 1, n); }
  }

  lemma {:induction false} Pow2Exceeds(n: nat)
    ensures n < Pow2(n)
  {
    if n > 0 { Pow2Exceeds(n - 1); }
  }

  lemma {:induction false} Pow2Small()
    ensures Pow2(0) == 1 && Pow2(1) == 2 && Pow2(2) == 4 && Pow2(3) == 8
    ensures Pow2(4) == 16 && Pow2(5) == 32 && Pow2(6) == 64 && Pow2(7) == 128
    ensures Pow2(8) == 256
  {
    assert Pow2(4) == 16;
  }

  // ----- shifts and masks are multiplication, division and remainder

  lemma {:induction false} ShrNone(v: int)
    ensures Shr(v, 0) == v
  {
  }

  lemma {:induction false} ShlIsMul(v: int, n: nat)
    ensures Shl(v, n) == v * Pow2(n)
    decreases n
  {
    if n > 0 {
      ShlIsMul(v, n - 1);
      MulAssoc(v, Pow2(n - 1));
    }
  }

  /** A value is its high part shifted up plus its low part. */
  lemma {:induction false} ShrLow(v: int, n: nat)
    ensures v == Shl(Shr(v, n), n) + Low(v, n)
    decreases n
  {
    if n > 0 { ShrLow(v / 2, n - 1); }
  }

  lemma {:induction false} LowIsMod(v: int, n: nat)
    ensures Low(v, n) == v % Pow2(n) && Shr(v, n) == v / Pow2(n)
  {
    ShrLow(v, n);
    ShlIsMul(Shr(v, n), n);
    DivModUnique(v, Pow2(n), Shr(v, n), Low(v, n));
  }

  lemma {:induction false} LowIdentity(v: int, n: nat)
    requires 0 <= v < Pow2(n)
    ensures Low(v, n) == v && Shr(v, n) == 0
    decreases n
  {
    if n > 0 { LowIdentity(v / 2, n - 1); }
  }

  lemma {:induction false} ShrBound(v: int, m: nat, n: nat)
    requires 0 <= v < Pow2(m + n)
    ensures 0 <= Shr(v, n) < Pow2(m)
    decreases n
  {
    if n > 0 { ShrBound(v / 2, m, n - 1); }
  }

  lemma {:induction false} ShlBound(x: int, m: nat, y: int, n: nat)
    requires 0 <= x < Pow2(m) && 0 <= y < Pow2(n)
    ensures 0 <= Shl(x, n) + y < Pow2(m + n)
    decreases n
  {
    if n > 0 { ShlBound(x, m, y / 2, n - 1); }
  }

  lemma {:induction false} ShrShr(v: int, m: nat, n: nat)
    ensures Shr(Shr(v, m), n) == Shr(v, m + n)
    decreases m
  {
    if m > 0 { ShrShr(v / 2, m - 1, n); }
  }

  lemma {:induction false} LowThenShr(v: int, m: nat, n: nat)
    ensures Shr(Low(v, m + n), n) == Low(Shr(v, n), m)
    decreases n
  {
    if n > 0 { LowThenShr(v / 2, m, n - 1); }
  }

  /** Euclidean division by a positive divisor is determined by its remainder bound. */
  lemma {:induction false} DivModUnique(a: int, d: int, q: int, r: int)
    requires d > 0 && 0 <= r < d && a == q * d + r
    ensures a / d == q && a % d == r
  {
    var q' := a / d;
    assert (q - q') * d == a % d - r;
    if q != q' { MulAtLeast(q - q', d); }
  }

  lemma {:induction false} MulAtLeast(k: int, d: int)
    requires d > 0 && k != 0
    ensures k * d >= d || k * d <= -d
  {
    if k > 0 {
      assert (k - 1) * d >= 0;
    } else {
      assert (-1 - k) * d >= 0;
    }
  }

  lemma {:induction false} MulLe(x: int, y: int, d: int)
    requires x <= y && d >= 0
    ensures x * d <= y * d
  {
  }

  lemma {:induction false} MulSucc(n: int, d: int)
    ensures (n + 1) * d == n * d + d
  {
  }

  /** Division that discards the fraction, as in C. */
  function Truncated(a: int, b: int): (q: int)
    requires b > 0
    ensures -b < a - b * q < b && (a >= 0 ==> a - b * q >= 0) && (a <= 0 ==> a - b * q <= 0)
    ensures a >= 0 ==> q >= 0
  {
    if a >= 0 then (Division(a, b); a / b) else (Division(-a, b); -(-a / b))
  }

  lemma {:induction false} Division(a: nat, b: nat)
    requires b > 0
    ensures a / b >= 0 && 0 <= a - b * (a / b) < b && b * -(a / b) == -(b * (a / b))
  {
    assert a == b * (a / b) + a % b;
  }

  // ----- bit widths

  /** The least w with x <= 2^w: what `ceil(log(x)/ln 2)` yields for x >= 1. */
  function CeilLog2(x: int): (w: nat)
    ensures x <= Pow2(w)
    ensures forall v: nat :: x <= Pow2(v) ==> w <= v
  {
    if x <= 1 then 0
    else
      var w := 1 + CeilLog2((x + 1) / 2);
      assert forall v: nat :: x <= Pow2(v) ==> w <= v by {
        forall v: nat | x <= Pow2(v) ensures w <= v {
          assert v > 0;
          assert (x + 1) / 2 <= Pow2(v - 1);
        }
      }
      w
  }

  lemma {:induction false} CeilLog2Zero(x: int)
    ensures CeilLog2(x) == 0 <==> x <= 1
  {
  }
}
