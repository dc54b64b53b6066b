/** `int_power`: integer powers by squaring, over exact reals. */
module Powers {

  function Pow(x: real, n: nat): (v: real)
  {
    if n == 0 then 1.0 else x * Pow(x, n - 1)
  }

  /** x to any integer power; 0 to a negative one is a division by zero. */
  function Power(x: real, y: int): (v: real)
    requires y >= 0 || x != 0.0
  {
    if y < 0 then Pow(1.0 / x, -y) else Pow(x, y)
  }

  lemma {:induction false} PowSquare(x: real, k: nat)
    ensures Pow(x, 2 * k) == Pow(x * x, k)
  {
    if k > 0 {
      PowSquare(x, k - 1);
      assert Pow(x, 2 * k) == x * (x * Pow(x, 2 * (k - 1)));
      Assoc3(x, x, Pow(x, 2 * (k - 1)));
    }
  }

  lemma {:induction false} Assoc3(a: real, b: real, c: real)
    ensures a * (b * c) == a * b * c
  {
  }

  /** Square and multiply computes the power, for every signed exponent. */
  method IntPower(x0: real, y0: int) returns (value: real)
    requires y0 >= 0 || x0 != 0.0
    ensures value == Power(x0, y0)
  {
    hide Pow;
    var x, y := x0, y0;
    if y < 0 {
      y := -y;
      x := 1.0 / x;
    }
    value := 1.0;
    ghost var goal := Pow(x, y);
    while y != 0
      invariant y >= 0 && value * Pow(x, y) == goal
    {
      Halve(x, y);
      if y % 2 == 1 {
        Assoc3(value, x, Pow(x * x, y / 2));
        value := value * x;
      }
      x := x * x;
      y := y / 2;
    }
    PowZero(x);
  }

  lemma {:induction false} Halve(x: real, y: nat)
    requires y > 0
    ensures Pow(x, y) == if y % 2 == 1 then x * Pow(x * x, y / 2) else Pow(x * x, y / 2)
  {
    PowSquare(x, y / 2);
    if y % 2 == 1 { assert y == 2 * (y / 2) + 1; } else { assert y == 2 * (y / 2); }
  }

  lemma {:induction false} PowZero(x: real)
    ensures Pow(x, 0) == 1.0
  {
  }

  lemma {:induction false} PowPositive(x: real, n: nat)
    requires x > 0.0
    ensures Pow(x, n) > 0.0
  {
    if n > 0 { PowPositive(x, n - 1); }
  }

  lemma {:induction false} PowInverse(x: real, n: nat)
    requires x > 0.0
    ensures Pow(x, n) * Pow(1.0 / x, n) == 1.0
  {
    if n > 0 {
      PowInverse(x, n - 1);
      var p, q := Pow(x, n - 1), Pow(1.0 / x, n - 1);
      Swap(x, p, 1.0 / x, q);
    }
  }

  lemma {:induction false} Swap(a: real, p: real, b: real, q: real)
    requires a * b == 1.0 && p * q == 1.0
    ensures (a * p) * (b * q) == 1.0
  {
    assert (a * p) * (b * q) == (a * b) * (p * q);
  }

  lemma {:induction false} PowerPositive(x: real, y: int)
    requires x > 0.0
    ensures Power(x, y) > 0.0
  {
    if y < 0 { PowPositive(1.0 / x, -y); } else { PowPositive(x, y); }
  }

  lemma {:induction false} PowerNegated(x: real, y: int)
    requires x > 0.0
    ensures Power(x, y) * Power(x, -y) == 1.0
  {
    if y < 0 { PowInverse(x, -y); } else { PowInverse(x, y); }
    if y == 0 { PowZero(x); }
  }

  lemma {:induction false} PowerSucc(x: real, y: int)
    requires x > 0.0
    ensures Power(x, y + 1) == x * Power(x, y)
  {
    if y < 0 {
      var z := 1.0 / x;
      assert Pow(z, -y) == z * Pow(z, -y - 1);
      Assoc3(x, z, Pow(z, -y - 1));
      PowZero(x);
      PowZero(z);
    }
  }

  // ----- powers of two

  function P2(n: int): (v: real)
    ensures v > 0.0
  {
    PowerPositive(2.0, n);
    Power(2.0, n)
  }

  lemma {:induction false} P2Succ(n: int)
    ensures P2(n + 1) == 2.0 * P2(n)
  {
    PowerSucc(2.0, n);
  }

  lemma {:induction false} P2Adds(a: int, b: nat)
    ensures P2(a + b) == P2(a) * P2(b)
  {
    hide P2;
    P2Zero();
    if b > 0 {
      P2Adds(a, b - 1);
      P2Succ(a + (b - 1));
      P2Succ(b - 1);
    }
  }

  lemma {:induction false} P2Zero()
    ensures P2(0) == 1.0
  {
  }

  lemma {:induction false} P2Negated(n: int)
    ensures P2(n) * P2(-n) == 1.0
  {
    PowerNegated(2.0, n);
  }

  lemma {:induction false} P2Monotone(a: int, b: int)
    requires a <= b
    ensures P2(a) <= P2(b)
    decreases b - a
  {
    hide P2;
    if a < b {
      P2Monotone(a, b - 1);
      P2Succ(b - 1);
    }
  }

  /** No number lies between two powers twice. */
  lemma {:induction false} P2Bracket(v: real, m: int, n: int)
    requires P2(m) <= v < P2(m + 1) && P2(n) <= v < P2(n + 1)
    ensures m == n
  {
    hide P2;
    if m < n { P2Monotone(m + 1, n); } else if n < m { P2Monotone(n + 1, m); }
  }

  lemma {:induction false} P2Large(n: nat)
    ensures P2(n) >= (n + 1) as real
  {
    hide P2;
    if n == 0 {
      P2Zero();
    } else {
      P2Large(n - 1);
      P2Succ(n - 1);
    }
  }
}
