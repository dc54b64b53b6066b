/** `mkieee` and `g2_rdieee`: reals to and from 32-bit patterns (section 3.4 of IEEE 754-2008). */
module Ieee {
  import opened Powers

  // ----- rounding

  /** The nearest integer, the even one of two. */
  function Rint(x: real): (i: int)
    ensures -0.5 <= x - i as real <= 0.5
  {
    var f := x.Floor;
    var d := x - f as real;
    if d < 0.5 then f else if d > 0.5 then f + 1 else if f % 2 == 0 then f else f + 1
  }

  lemma {:induction false} RintExact(i: int)
    ensures Rint(i as real) == i
  {
  }

  lemma {:induction false} RintMonotone(x: real, y: real)
    requires x <= y
    ensures Rint(x) <= Rint(y)
  {
    if x.Floor == y.Floor {
    } else {
      assert x.Floor < y.Floor;
    }
  }

  // ----- patterns

  const TWO23 := 0x80_0000
  const TWO31 := 0x8000_0000

  /** What the original reads exponent 255 as. */
  const TEN_TO_37 := 10000000000000000000000000000000000000.0

  type word = w: int | 0 <= w < 0x1_0000_0000

  function Sign(w: word): (b: int) { w / TWO31 }

  function Exponent(w: word): (e: int)
    ensures 0 <= e < 256
  {
    w / TWO23 % 256
  }

  function Mantissa(w: word): (m: int)
    ensures 0 <= m < TWO23
  {
    w % TWO23
  }

  lemma {:induction false} Assembled(w: word)
    ensures w == Sign(w) * TWO31 + Exponent(w) * TWO23 + Mantissa(w) && 0 <= Sign(w) <= 1
  {
  }

  predicate Finite(w: word)
  {
    Exponent(w) != 255
  }

  /** A mantissa as a fraction. */
  function Frac(m: int): (f: real)
    ensures m >= 0 ==> f >= 0.0
  {
    if m >= 0 then NonnegativeProduct(P2(-23), m as real); P2(-23) * m as real else P2(-23) * m as real
  }

  function Grown(p: real, f: real): (v: real)
  {
    p * (1.0 + f)
  }

  /** What a pattern stands for, without its sign. */
  function Magnitude(w: word): (v: real)
    ensures v >= 0.0
  {
    var e, f := Exponent(w), Frac(Mantissa(w));
    if 0 < e < 255 then
      NonnegativeProduct(P2(e - 127), 1.0 + f);
      Grown(P2(e - 127), f)
    else if e == 0 then
      NonnegativeProduct(P2(-126), f);
      P2(-126) * f
    else TEN_TO_37
  }

  lemma {:induction false} NonnegativeProduct(a: real, b: real)
    requires a >= 0.0 && b >= 0.0
    ensures a * b >= 0.0
  {
  }

  function Value(w: word): (v: real)
  {
    if Sign(w) == 1 then -Magnitude(w) else Magnitude(w)
  }

  /** The mantissa before rounding: of a normal number, and of a subnormal one. */
  function NormalMantissa(v: real, n: int): (x: real)
  {
    (v / P2(n) - 1.0) * P2(23)
  }

  function SubnormalMantissa(v: real): (x: real)
  {
    v * P2(126) * P2(23)
  }

  /** The exponent and mantissa fields for v, whose leading bit is that of 2^n. */
  function Fields(v: real, n: int): (f: (int, int))
    requires v > 0.0
  {
    var iexp := if n > 127 then 255 else if n < -127 then 0 else n + 127;
    if iexp == 255 then (255, 0)
    else if iexp != 0 then (iexp, Rint(NormalMantissa(v, n)))
    else (0, Rint(SubnormalMantissa(v)))
  }

  /** The fields put together by bitwise or: a mantissa rounded up to 2^23 may be lost. */
  function Joined(negative: bool, f: (int, int)): (w: int)
  {
    (if negative then TWO31 else 0) + f.0 * TWO23 + if f.1 == TWO23 && f.0 % 2 == 1 then 0 else f.1
  }

  // ----- the routines

  method TwoTo(n: int) returns (p: real)
    ensures p == P2(n)
  {
    p := IntPower(2.0, n);
  }

  /** The loops that look for the leading bit. */
  method LeadingBit(v: real) returns (n: int)
    requires v > 0.0
    ensures P2(n) <= v < P2(n + 1)
  {
    hide P2;
    P2Zero();
    var p: real;
    if v >= 1.0 {
      n := 0;
      p := TwoTo(n + 1);
      while p <= v
        invariant n >= 0 && p == P2(n + 1) && P2(n) <= v
        decreases v.Floor - n
      {
        P2Large(n + 1);
        n := n + 1;
        p := TwoTo(n + 1);
      }
    } else {
      n := -1;
      p := TwoTo(n);
      while p > v
        invariant n <= -1 && p == P2(n) && v < P2(n + 1)
        decreases (1.0 / v).Floor + n
      {
        Reciprocal(v, n);
        n := n - 1;
        p := TwoTo(n);
      }
    }
  }

  lemma {:induction false} Reciprocal(v: real, n: int)
    requires v > 0.0 && n < 0 && P2(n) > v
    ensures (1.0 / v).Floor >= -n
  {
    hide P2;
    P2Negated(n);
    P2Large(-n);
    var a, b := P2(n), P2(-n);
    assert a * b > v * b;
    assert b < 1.0 / v;
  }

  function Abs(a: real): (v: real)
    ensures v >= 0.0
  {
    if a < 0.0 then -a else a
  }

  /** One trip of the loop of `mkieee`. */
  method MakeIeee(a: real) returns (ieee: int)
    ensures IsPattern(a, ieee)
  {
    hide P2, Rint, NormalMantissa, SubnormalMantissa;
    if a == 0.0 { return 0; }
    var negative := a < 0.0;
    var atemp := if negative then -1.0 * a else a;
    var n := LeadingBit(atemp);
    var iexp := n + 127;
    if n > 127 { iexp := 255; }
    if n < -127 { iexp := 0; }
    var imant := 0;
    if iexp != 255 {
      if iexp != 0 {
        imant := Rint(NormalMantissa(atemp, n));
      } else {
        imant := Rint(SubnormalMantissa(atemp));
      }
    }
    assert atemp == Abs(a);
    assert (iexp, imant) == Fields(atemp, n);
    ieee := Joined(negative, (iexp, imant));
  }

  /** `mkieee` */
  method MakeAll(a: seq<real>) returns (rieee: seq<int>)
    ensures |rieee| == |a|
    ensures forall j :: 0 <= j < |a| ==> IsPattern(a[j], rieee[j])
  {
    hide P2, Fields, Joined;
    rieee := [];
    for j := 0 to |a|
      invariant |rieee| == j && forall i :: 0 <= i < j ==> IsPattern(a[i], rieee[i])
    {
      var ieee := MakeIeee(a[j]);
      rieee := rieee + [ieee];
    }
  }

  /** ieee is the pattern that `mkieee` makes of a. */
  ghost predicate IsPattern(a: real, ieee: int)
  {
    if a == 0.0 then ieee == 0
    else exists n :: P2(n) <= Abs(a) < P2(n + 1) && ieee == Joined(a < 0.0, Fields(Abs(a), n))
  }

  /** `g2_rdieee` */
  method ReadAll(rieee: seq<word>) returns (a: seq<real>)
    ensures |a| == |rieee| && forall j :: 0 <= j < |a| ==> a[j] == Value(rieee[j])
  {
    hide P2, Frac, Grown;
    FracZero();
    a := [];
    for j := 0 to |rieee|
      invariant |a| == j && forall i :: 0 <= i < j ==> a[i] == Value(rieee[i])
    {
      var w := rieee[j];
      var isign, iexp, imant := Sign(w), Exponent(w), Mantissa(w);
      var v := 0.0;
      if iexp > 0 && iexp < 255 {
        v := Grown(P2(iexp - 127), Frac(imant));
      } else if iexp == 0 {
        if imant != 0 { v := P2(-126) * Frac(imant); }
      } else {
        v := TEN_TO_37;
      }
      a := a + [if isign == 1 then -v else v];
    }
  }

  // ----- round trip

  lemma {:induction false} P2Of23()
    ensures P2(23) == 8388608.0
  {
    P2Of10();
    P2Adds(10, 10);
    P2Adds(20, 3);
    assert Pow(2.0, 3) == 8.0;
  }

  lemma {:induction false} P2Of10()
    ensures P2(10) == 1024.0
  {
    assert Pow(2.0, 5) == 32.0;
    P2Adds(5, 5);
  }

  lemma {:induction false} FracZero()
    ensures Frac(0) == 0.0
  {
  }

  /** The fraction is below 1, and times 2^23 gives the mantissa. */
  lemma {:induction false} Fraction(m: int)
    requires 0 <= m < TWO23
    ensures 0.0 <= Frac(m) < 1.0 && Frac(m) * P2(23) == m as real && (m > 0 ==> Frac(m) > 0.0)
  {
    hide P2;
    P2Of23();
    P2Negated(23);
    var a, b, x := P2(23), P2(-23), m as real;
    assert b * x * a == (a * b) * x;
    LessTimes(x, a, b);
    if m > 0 { PositiveProduct(b, x); }
  }

  lemma {:induction false} Quotient(p: real, y: real, product: real)
    requires p > 0.0 && product == p * y
    ensures product / p == y
  {
    var q := product / p;
    assert q * p == product;
    if q < y { LessTimes(q, y, p); } else if y < q { LessTimes(y, q, p); }
  }

  lemma {:induction false} LessTimes(x: real, y: real, p: real)
    requires x < y && p > 0.0
    ensures x * p < y * p
  {
  }

  lemma {:induction false} NormalRange(p: real, f: real)
    requires p > 0.0 && 0.0 <= f < 1.0
    ensures p <= Grown(p, f) < 2.0 * p && Grown(p, f) / p == 1.0 + f
  {
    Quotient(p, 1.0 + f, Grown(p, f));
    LessTimes(1.0 + f, 2.0, p);
    if f > 0.0 { LessTimes(1.0, 1.0 + f, p); }
  }

  /** The value of a normal number, and its mantissa found again. */
  lemma {:induction false} NormalBack(k: int, m: int)
    requires 0 <= m < TWO23
    ensures var v := Grown(P2(k), Frac(m)); P2(k) <= v < P2(k + 1) && NormalMantissa(v, k) == m as real
  {
    hide P2, Frac, Grown, NormalMantissa;
    Fraction(m);
    P2Succ(k);
    NormalRange(P2(k), Frac(m));
    MantissaIs(Grown(P2(k), Frac(m)), k, Frac(m));
  }

  lemma {:induction false} MantissaIs(v: real, n: int, f: real)
    requires v / P2(n) == 1.0 + f
    ensures NormalMantissa(v, n) == f * P2(23)
  {
    hide P2;
  }

  lemma {:induction false} SubnormalBack(m: int, v: real)
    requires 0 < m < TWO23 && v == P2(-126) * Frac(m)
    ensures 0.0 < v < P2(-126) && SubnormalMantissa(v) == m as real
  {
    hide P2, Frac;
    Fraction(m);
    Times(P2(-126), Frac(m), v);
    P2Negated(126);
    Scaled(P2(-126), P2(126), Frac(m), P2(23), m as real);
    PositiveProduct(P2(-126), Frac(m));
  }

  lemma {:induction false} PositiveProduct(a: real, b: real)
    requires a > 0.0 && b > 0.0
    ensures a * b > 0.0
  {
  }

  lemma {:induction false} Times(q: real, f: real, v: real)
    requires q > 0.0 && f < 1.0 && v == q * f
    ensures v < q
  {
    LessTimes(f, 1.0, q);
  }

  lemma {:induction false} Scaled(q: real, r: real, f: real, s: real, x: real)
    requires r * q == 1.0 && f * s == x
    ensures q * f * r * s == x
  {
    assert q * f * r == f;
  }

  lemma {:induction false} NormalFields(w: word, n: int)
    requires 0 < Exponent(w) < 255 && P2(n) <= Magnitude(w) < P2(n + 1)
    ensures Magnitude(w) > 0.0 && Fields(Magnitude(w), n) == (Exponent(w), Mantissa(w))
  {
    hide P2, Rint, Exponent, Mantissa, NormalMantissa, Frac, Grown;
    NormalBack(Exponent(w) - 127, Mantissa(w));
    P2Bracket(Magnitude(w), n, Exponent(w) - 127);
    RintExact(Mantissa(w));
  }

  lemma {:induction false} SubnormalFields(w: word, n: int)
    requires Exponent(w) == 0 && Mantissa(w) > 0 && P2(n) <= Magnitude(w) < P2(n + 1)
    ensures Magnitude(w) > 0.0 && Fields(Magnitude(w), n) == (0, Mantissa(w))
  {
    hide P2, Rint, Exponent, Mantissa, SubnormalMantissa, Frac;
    SubnormalBack(Mantissa(w), Magnitude(w));
    if n >= -126 { P2Monotone(-126, n); }
    RintExact(Mantissa(w));
  }

  lemma {:induction false} SignOfValue(w: word)
    requires Magnitude(w) > 0.0
    ensures Abs(Value(w)) == Magnitude(w) && (Value(w) < 0.0 <==> Sign(w) == 1)
  {
    hide Magnitude;
  }

  lemma {:induction false} TooSmallFor255(n: int)
    requires P2(n) <= TEN_TO_37
    ensures n <= 124
  {
    hide P2;
    P2Of10();
    P2Adds(10, 10);
    P2Adds(20, 20);
    P2Adds(40, 40);
    P2Adds(80, 40);
    P2Adds(120, 5);
    P2Large(5);
    var t := P2(40);
    assert t >= 1000000000000.0;
    assert t * t >= 1000000000000000000000000.0;
    assert P2(120) >= 1000000000000000000000000000000000000.0;
    P2FiveIs();
    if n > 124 { P2Monotone(125, n); }
  }

  lemma {:induction false} P2FiveIs()
    ensures P2(5) == 32.0
  {
    assert Pow(2.0, 5) == 32.0;
  }

  /** The pattern made of the value read is the pattern itself, exactly when it is finite and not negative zero. */
  lemma {:induction false} PatternRoundTrip(w: word, ieee: int)
    requires IsPattern(Value(w), ieee)
    ensures ieee == w <==> Finite(w) && w != TWO31
  {
    hide P2, Fields, Magnitude, Exponent, Mantissa;
    Assembled(w);
    MagnitudeZero(w);
    if Value(w) != 0.0 {
      var n :| P2(n) <= Abs(Value(w)) < P2(n + 1) && ieee == Joined(Value(w) < 0.0, Fields(Abs(Value(w)), n));
      SignOfValue(w);
      if Exponent(w) == 255 {
        InfiniteIsLost(w, n, ieee);
      } else if Exponent(w) == 0 {
        SubnormalFields(w, n);
      } else {
        NormalFields(w, n);
      }
    }
  }

  lemma {:induction false} MagnitudeZero(w: word)
    ensures Magnitude(w) == 0.0 <==> Exponent(w) == 0 && Mantissa(w) == 0
    ensures Value(w) == 0.0 <==> Magnitude(w) == 0.0
  {
    hide P2, Frac, Grown;
    Fraction(Mantissa(w));
    FracZero();
    var e, f := Exponent(w), Frac(Mantissa(w));
    if 0 < e < 255 {
      NormalRange(P2(e - 127), f);
    } else if e == 0 && Mantissa(w) > 0 {
      PositiveProduct(P2(-126), f);
    }
  }

  /** Exponent 255 is never made of the finite value that stands in for it. */
  lemma {:induction false} InfiniteIsLost(w: word, n: int, ieee: int)
    requires Exponent(w) == 255 && P2(n) <= Magnitude(w) < P2(n + 1)
    requires Magnitude(w) > 0.0 && ieee == Joined(Sign(w) == 1, Fields(Magnitude(w), n))
    ensures ieee != w
  {
    hide P2, Rint, Fields;
    TooSmallFor255(n);
    AtLeastOne(n, Magnitude(w));
    FieldBound(Magnitude(w), n);
    Assembled(w);
  }

  lemma {:induction false} AtLeastOne(n: int, v: real)
    requires P2(n) <= v < P2(n + 1) && v >= 1.0
    ensures n >= 0
  {
    hide P2;
    P2Zero();
    if n < 0 { P2Monotone(n + 1, 0); }
  }

  lemma {:induction false} FieldBound(v: real, n: int)
    requires v > 0.0 && P2(n) <= v < P2(n + 1) && -126 <= n <= 127
    ensures Fields(v, n).0 == n + 127 && 0 <= Fields(v, n).1 <= TWO23
  {
    hide P2, Rint, NormalMantissa;
    MantissaRange(v, n);
    RintExact(0);
    RintExact(TWO23);
    RintMonotone(0.0, NormalMantissa(v, n));
    RintMonotone(NormalMantissa(v, n), 8388608.0);
  }

  lemma {:induction false} MantissaRange(v: real, n: int)
    requires P2(n) <= v < P2(n + 1)
    ensures 0.0 <= NormalMantissa(v, n) <= 8388608.0
  {
    hide P2;
    P2Succ(n);
    P2Of23();
    var q, p := v / P2(n), P2(n);
    assert q * p == v;
    if q < 1.0 { LessTimes(q, 1.0, p); } else if q > 2.0 { LessTimes(2.0, q, p); }
  }

  // ----- values that are no 32-bit floats

  lemma {:induction false} SubnormalBound(v: real, n: int)
    requires v > 0.0 && v < P2(n + 1) && n <= -127
    ensures Fields(v, n).0 == 0 && 0 <= Fields(v, n).1 <= TWO23
  {
    hide P2, Rint, SubnormalMantissa;
    SubnormalRange(v, n);
    RintExact(0);
    RintExact(TWO23);
    RintMonotone(0.0, SubnormalMantissa(v));
    RintMonotone(SubnormalMantissa(v), 8388608.0);
  }

  lemma {:induction false} SubnormalRange(v: real, n: int)
    requires 0.0 < v < P2(n + 1) && n <= -127
    ensures 0.0 <= SubnormalMantissa(v) <= 8388608.0
  {
    hide P2;
    P2Monotone(n + 1, -126);
    P2Negated(126);
    P2Of23();
    var q, r := P2(-126), P2(126);
    LessTimes(v, q, r);
    PositiveProduct(v, r);
  }

  /** Whatever the value, its pattern takes 32 bits. */
  lemma {:induction false} PatternIsWord(a: real, ieee: int)
    requires IsPattern(a, ieee)
    ensures 0 <= ieee < 0x1_0000_0000
  {
    hide P2, Fields;
    if a != 0.0 {
      var n :| P2(n) <= Abs(a) < P2(n + 1) && ieee == Joined(a < 0.0, Fields(Abs(a), n));
      if n > 127 {
        Overflown(Abs(a), n);
      } else if n < -126 {
        SubnormalBound(Abs(a), n);
      } else {
        FieldBound(Abs(a), n);
      }
    }
  }

  lemma {:induction false} Overflown(v: real, n: int)
    requires v > 0.0 && n > 127
    ensures Fields(v, n) == (255, 0)
  {
  }

  /** The mantissa is rounded up to 2^23, and the carry is lost or runs into the exponent of infinity. */
  predicate CarryLost(v: real, n: int)
  {
    Rint(NormalMantissa(v, n)) == TWO23 && (n % 2 == 0 || n == 127)
  }

  /** w is within half a unit of the last place of a, whose leading bit is that of 2^n. */
  predicate Nearest(w: real, a: real, n: int)
  {
    -P2(n - 24) <= w - a <= P2(n - 24)
  }

  /** In the normal range a pattern stands for a nearest value if and only if no carry is lost. */
  lemma {:induction false} PatternNear(a: real, n: int, ieee: int)
    requires -126 <= n <= 127 && P2(n) <= Abs(a) < P2(n + 1)
    requires a != 0.0 && ieee == Joined(a < 0.0, Fields(Abs(a), n))
    ensures 0 <= ieee < 0x1_0000_0000 && (Nearest(Value(ieee), a, n) <==> !CarryLost(Abs(a), n))
  {
    hide P2, Rint, NormalMantissa, Frac, Grown, Value, Joined, Fields, Nearest, CarryLost;
    if CarryLost(Abs(a), n) { CarryFar(a, n, ieee); } else { NoCarryNear(a, n, ieee); }
  }

  lemma {:induction false} NoCarryNear(a: real, n: int, ieee: int)
    requires -126 <= n <= 127 && P2(n) <= Abs(a) < P2(n + 1) && !CarryLost(Abs(a), n)
    requires a != 0.0 && ieee == Joined(a < 0.0, Fields(Abs(a), n))
    ensures 0 <= ieee < 0x1_0000_0000 && Nearest(Value(ieee), a, n)
  {
    hide P2, Rint, NormalMantissa, Frac, Grown, Value;
    var v := Abs(a);
    var m := Rint(NormalMantissa(v, n));
    FieldBound(v, n);
    MantissaNear(v, n, m);
    if m < TWO23 {
      Disassembled(a < 0.0, n + 127, m);
    } else {
      FullFraction();
      Disassembled(a < 0.0, n + 128, 0);
      FracZero();
      GrownOnce(n);
    }
  }

  lemma {:induction false} CarryFar(a: real, n: int, ieee: int)
    requires -126 <= n <= 127 && P2(n) <= Abs(a) < P2(n + 1) && CarryLost(Abs(a), n)
    requires a != 0.0 && ieee == Joined(a < 0.0, Fields(Abs(a), n))
    ensures 0 <= ieee < 0x1_0000_0000 && !Nearest(Value(ieee), a, n)
  {
    hide P2, NormalMantissa, Frac, Grown, Value;
    FieldBound(Abs(a), n);
    if n == 127 {
      Infinite(a < 0.0);
      FarBelow();
      assert Abs(a) - TEN_TO_37 > P2(n - 24);
    } else {
      Disassembled(a < 0.0, n + 127, 0);
      FracZero();
      GrownNothing(n);
      AsUnits(Abs(a), n);
      UnitIs(n);
      FullUnits(Abs(a), P2(n), NormalMantissa(Abs(a), n), P2(n) * P2(-23), P2(n - 24));
      assert Value(ieee) == if a < 0.0 then -P2(n) else P2(n);
    }
  }

  lemma {:induction false} FullUnits(v: real, p: real, x: real, g: real, h: real)
    requires v == p + x * g && x > 1.0 && g > 0.0 && h == 0.5 * g
    ensures v - p > h
  {
    LessTimes(0.5, x, g);
  }

  lemma {:induction false} GrownNothing(n: int)
    ensures Grown(P2(n), 0.0) == P2(n)
  {
    hide P2;
  }

  lemma {:induction false} Infinite(negative: bool)
    ensures var w := (if negative then TWO31 else 0) + 255 * TWO23;
      0 <= w < 0x1_0000_0000 && Value(w) == (if negative then -TEN_TO_37 else TEN_TO_37)
  {
    hide P2, Frac, Grown;
    var w := (if negative then TWO31 else 0) + 255 * TWO23;
    assert Sign(w) == (if negative then 1 else 0) && Exponent(w) == 255;
  }

  lemma {:induction false} FarBelow()
    ensures P2(127) - TEN_TO_37 > P2(103)
  {
    hide P2;
    if P2(125) <= TEN_TO_37 { TooSmallFor255(125); }
    P2Succ(125);
    P2Succ(126);
    P2Monotone(103, 125);
  }

  lemma {:induction false} Disassembled(negative: bool, e: int, m: int)
    requires 0 < e < 255 && 0 <= m < TWO23
    ensures var w := (if negative then TWO31 else 0) + e * TWO23 + m;
      && 0 <= w < 0x1_0000_0000
      && Value(w) == (if negative then -Grown(P2(e - 127), Frac(m)) else Grown(P2(e - 127), Frac(m)))
  {
    hide P2, Frac, Grown;
    var w := (if negative then TWO31 else 0) + e * TWO23 + m;
    assert Sign(w) == if negative then 1 else 0;
    assert Exponent(w) == e && Mantissa(w) == m;
  }

  lemma {:induction false} FullFraction()
    ensures Frac(TWO23) == 1.0
  {
    hide P2;
    P2Of23();
    P2Negated(23);
  }

  lemma {:induction false} GrownOnce(n: int)
    ensures Grown(P2(n), 1.0) == Grown(P2(n + 1), 0.0)
  {
    hide P2;
    P2Succ(n);
  }

  /** The rounded mantissa stands for a value within half a unit. */
  lemma {:induction false} MantissaNear(v: real, n: int, m: int)
    requires -0.5 <= NormalMantissa(v, n) - m as real <= 0.5
    ensures -P2(n - 24) <= Grown(P2(n), Frac(m)) - v <= P2(n - 24)
  {
    hide P2, NormalMantissa;
    UnitIs(n);
    AsUnits(v, n);
    var g, x, y := P2(n) * P2(-23), NormalMantissa(v, n), m as real;
    GrownIs(P2(n), P2(-23), m, g);
    Apart(v, Grown(P2(n), Frac(m)), P2(n), x, y, g, P2(n - 24));
  }

  lemma {:induction false} Apart(v: real, w: real, p: real, x: real, y: real, g: real, h: real)
    requires v == p + x * g && w == p + y * g && -0.5 <= x - y <= 0.5 && g > 0.0 && h == 0.5 * g
    ensures -h <= w - v <= h
  {
    var z := y - x;
    Distance(p, x, y, z, g, v, w);
    Halved(z, g);
  }

  /** A value in units of the last place of its mantissa. */
  lemma {:induction false} AsUnits(v: real, n: int)
    ensures v == P2(n) + NormalMantissa(v, n) * (P2(n) * P2(-23))
  {
    hide P2;
    P2Negated(23);
    FromMantissa(v, P2(n), P2(23), P2(-23), NormalMantissa(v, n));
  }

  lemma {:induction false} GrownIs(p: real, u: real, m: int, g: real)
    requires u == P2(-23) && g == p * u
    ensures Grown(p, Frac(m)) == p + m as real * g
  {
    hide P2;
    var y := m as real;
    assert p * (u * y) == y * (p * u);
  }

  lemma {:induction false} Distance(p: real, x: real, y: real, z: real, g: real, v: real, w: real)
    requires v == p + x * g && w == p + y * g && z == y - x
    ensures w - v == z * g
  {
  }

  lemma {:induction false} FromMantissa(v: real, p: real, q: real, u: real, x: real)
    requires p > 0.0 && q * u == 1.0 && x == (v / p - 1.0) * q
    ensures v == p + x * (p * u)
  {
    var r := v / p;
    assert r * p == v;
    assert x * u == (r - 1.0) * (q * u);
    assert x * (p * u) == (x * u) * p;
  }

  lemma {:induction false} Halved(x: real, g: real)
    requires -0.5 <= x <= 0.5 && g > 0.0
    ensures -(0.5 * g) <= x * g <= 0.5 * g
  {
    if x < 0.5 { LessTimes(x, 0.5, g); }
    if -0.5 < x { LessTimes(-0.5, x, g); }
  }

  lemma {:induction false} UnitIs(n: int)
    ensures 0.5 * (P2(n) * P2(-23)) == P2(n - 24) && P2(n) * P2(-23) > 0.0
  {
    hide P2;
    P2Adds(n - 24, 24);
    P2Succ(-24);
    P2Negated(24);
    var a, b, c := P2(n - 24), P2(24), P2(-24);
    assert P2(n) * P2(-23) == a * b * (2.0 * c);
    assert a * b * (2.0 * c) == 2.0 * (a * (b * c));
    PositiveProduct(P2(n), P2(-23));
  }
}
