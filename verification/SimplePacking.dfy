/** `simpack` and `simunpack` (Data Representation Template 5.0), over exact reals. */
module SimplePacking {
  import opened Options
  import opened Shifts
  import opened BitString
  import opened BitIO
  import opened SignMagnitude
  import opened FieldIO
  import opened Powers
  import opened Ieee

  /** 10^d */
  function P10(d: int): (v: real)
    ensures v > 0.0
  {
    PowerPositive(10.0, d);
    Power(10.0, d)
  }

  /** v * 10^d */
  function Tens(v: real, d: int): (x: real)
  {
    v * P10(d)
  }

  lemma {:induction false} TensMonotone(u: real, v: real, d: int)
    ensures u <= v ==> Tens(u, d) <= Tens(v, d)
    ensures u < v ==> Tens(u, d) < Tens(v, d)
  {
    hide P10;
    if u <= v { Scale(u, v, P10(d)); }
    if u < v { LessTimes(u, v, P10(d)); }
  }

  lemma {:induction false} P10Negated(d: int)
    ensures P10(d) * P10(-d) == 1.0
  {
    PowerNegated(10.0, d);
  }

  // ----- one value

  function Scaled(v: real, ref: real, e: int, d: int): (x: real)
  {
    (Tens(v, d) - ref) * P2(-e)
  }

  function Unscaled(x: real, ref: real, e: int, d: int): (v: real)
  {
    (x * P2(e) + ref) * P10(-d)
  }

  function RealOf(i: int, ref: real, e: int, d: int): (v: real)
  {
    Unscaled(i as real, ref, e, d)
  }

  /** Half a step of the packed values. */
  function HalfStep(e: int, d: int): (h: real)
    ensures h > 0.0
  {
    Positive(P2(e), P10(-d));
    0.5 * (P2(e) * P10(-d))
  }

  lemma {:induction false} Positive(a: real, b: real)
    requires a > 0.0 && b > 0.0
    ensures a * b > 0.0
  {
  }

  predicate Close(u: real, v: real, h: real)
  {
    -h <= u - v <= h
  }

  lemma {:induction false} Undo(x: real, a: real, b: real)
    requires a * b == 1.0
    ensures x * a * b == x
  {
    Assoc3(x, a, b);
  }

  /** Unpacking inverts the scaling. */
  lemma {:induction false} UnscaledScaled(v: real, ref: real, e: int, d: int)
    ensures Unscaled(Scaled(v, ref, e, d), ref, e, d) == v
  {
    hide P2, P10;
    P2Negated(-e);
    P10Negated(d);
    Undo(Tens(v, d) - ref, P2(-e), P2(e));
    Undo(v, P10(d), P10(-d));
  }

  lemma {:induction false} StepError(x: real, y: real, ref: real, e: int, d: int)
    requires -0.5 <= x - y <= 0.5
    ensures Close(Unscaled(x, ref, e, d), Unscaled(y, ref, e, d), HalfStep(e, d))
  {
    hide P2, P10;
    var a, u := P2(e), P10(-d);
    Positive(a, u);
    var g := a * u;
    assert (x * a + ref) * u - (y * a + ref) * u == (x - y) * g;
    Scale(-0.5, x - y, g);
    Scale(x - y, 0.5, g);
  }

  lemma {:induction false} Scale(x: real, y: real, g: real)
    requires x <= y && g > 0.0
    ensures x * g <= y * g
  {
  }

  /** An integer nearest to the scaled value is unpacked to within half a step of the value. */
  lemma {:induction false} WithinHalfStep(i: int, v: real, ref: real, e: int, d: int)
    requires Close(i as real, Scaled(v, ref, e, d), 0.5)
    ensures Close(RealOf(i, ref, e, d), v, HalfStep(e, d))
  {
    hide P2, P10, Scaled, Unscaled, HalfStep;
    UnscaledScaled(v, ref, e, d);
    StepError(i as real, Scaled(v, ref, e, d), ref, e, d);
  }

  // ----- the choice of width and scale

  /** What goes into the template; `whole` when values and reference were rounded to integers apart. */
  datatype Scaling = Scaling(ref: real, e: int, nbits: nat, whole: bool)

  /** The integer that is packed for v. */
  function Code(v: real, t: Scaling, d: int): (i: int)
  {
    if t.whole then Rint(Tens(v, d)) - t.ref.Floor else Rint(Scaled(v, t.ref, t.e, d))
  }

  /** The width asked for or, without one, the least that holds the code of the greatest value. */
  function WidthFor(lo: real, hi: real, nbits: nat, e: int, d: int): (n: nat)
  {
    if nbits > 0 then nbits
    else if e == 0 then CeilLog2(Rint(Tens(hi, d)) - Rint(Tens(lo, d)) + 1)
    else CeilLog2(Rint(Scaled(hi, Tens(lo, d), e, d)) + 1)
  }

  /** The four ways of `simpack` to settle the scaling of values from lo to hi, given the caller's entries. */
  ghost predicate Chosen(t: Scaling, lo: real, hi: real, nbits: nat, e: int, d: int)
  {
    && t.nbits == WidthFor(lo, hi, nbits, e, d)
    && (if nbits == 0 && e == 0 then t.whole && t.e == 0 && t.ref == Rint(Tens(lo, d)) as real
        else !t.whole && t.ref == Tens(lo, d))
    && (nbits > 0 && e == 0 ==> LeastScale(Tens(hi, d) - t.ref, Shifts.Pow2(nbits) - 1, t.e))
    && (e != 0 ==> t.e == e)
  }

  /** The least binary scale at which a range needs no more than `top` steps. */
  ghost predicate LeastScale(range: real, top: int, e: int)
  {
    top as real * P2(e - 1) < range <= top as real * P2(e)
  }

  lemma {:induction false} CodeIsNearest(v: real, lo: real, hi: real, t: Scaling, nbits: nat, e: int, d: int)
    requires Chosen(t, lo, hi, nbits, e, d)
    ensures Close(Code(v, t, d) as real, Scaled(v, t.ref, t.e, d), 0.5)
  {
    hide P10, Tens, Rint, P2, Scaled, CeilLog2, Shifts.Pow2;
    if t.whole { WholeScaled(v, t.ref, d); }
  }

  lemma {:induction false} WholeScaled(v: real, ref: real, d: int)
    ensures Scaled(v, ref, 0, d) == Tens(v, d) - ref
  {
    hide P10, Tens, P2;
    P2Zero();
  }

  lemma {:induction false} CodesInRange(v: real, lo: real, hi: real, t: Scaling, d: int)
    requires lo <= v <= hi
    ensures Code(lo, t, d) <= Code(v, t, d) <= Code(hi, t, d)
  {
    hide P2, P10, Rint, Scaled;
    TensMonotone(lo, v, d);
    TensMonotone(v, hi, d);
    if t.whole {
      RintMonotone(Tens(lo, d), Tens(v, d));
      RintMonotone(Tens(v, d), Tens(hi, d));
    } else {
      ScaledMonotone(lo, v, t.ref, t.e, d);
      ScaledMonotone(v, hi, t.ref, t.e, d);
      RintMonotone(Scaled(lo, t.ref, t.e, d), Scaled(v, t.ref, t.e, d));
      RintMonotone(Scaled(v, t.ref, t.e, d), Scaled(hi, t.ref, t.e, d));
    }
  }

  lemma {:induction false} ScaledMonotone(u: real, v: real, ref: real, e: int, d: int)
    requires u <= v
    ensures Scaled(u, ref, e, d) <= Scaled(v, ref, e, d)
  {
    hide P2, P10;
    TensMonotone(u, v, d);
    var x, y := Tens(u, d) - ref, Tens(v, d) - ref;
    Scale(x, y, P2(-e));
  }

  /** When the width or the scale was left to it, every code fits the width. */
  lemma {:induction false} CodesFit(v: real, lo: real, hi: real, t: Scaling, nbits: nat, e: int, d: int)
    requires Chosen(t, lo, hi, nbits, e, d) && lo <= v <= hi && (nbits == 0 || e == 0)
    ensures 0 <= Code(v, t, d) < Shifts.Pow2(t.nbits)
  {
    hide P10, Tens, Rint, Scaled, Shifts.Pow2, CeilLog2;
    CodesInRange(v, lo, hi, t, d);
    if !t.whole {
      LeastCode(lo, t.e, d);
      if e == 0 { TopCode(hi, t.ref, t.e, d, Shifts.Pow2(nbits) - 1); }
    }
  }

  /** With the least value as reference, its code is 0. */
  lemma {:induction false} LeastCode(lo: real, e: int, d: int)
    ensures Rint(Scaled(lo, Tens(lo, d), e, d)) == 0
  {
    hide P2, P10, Tens, Rint;
    assert Scaled(lo, Tens(lo, d), e, d) == 0.0;
    RintExact(0);
  }

  lemma {:induction false} TopCode(hi: real, ref: real, e: int, d: int, top: int)
    requires Tens(hi, d) - ref <= top as real * P2(e)
    ensures Rint(Scaled(hi, ref, e, d)) <= top
  {
    hide P2, P10, Tens, Rint;
    P2Negated(e);
    Scale(Tens(hi, d) - ref, top as real * P2(e), P2(-e));
    Undo(top as real, P2(e), P2(-e));
    RintMonotone(Scaled(hi, ref, e, d), top as real);
    RintExact(top);
  }

  // ----- the routines

  /** ceil(log2(range / top)) */
  method FindScale(range: real, top: int) returns (e: int)
    requires range > 0.0 && top >= 1
    ensures LeastScale(range, top, e)
  {
    hide P2;
    var x := top as real;
    var q := range / x;
    assert q * x == range;
    if q <= 0.0 { Scale(q, 0.0, x); }
    var n := LeadingBit(q);
    P2Succ(n - 1);
    P2Succ(n);
    e := if q == P2(n) then n else n + 1;
    Between(q, x, P2(e - 1), P2(e));
  }

  lemma {:induction false} Between(q: real, x: real, a: real, b: real)
    requires x > 0.0 && a < q <= b
    ensures x * a < q * x <= x * b
  {
    LessTimes(a, q, x);
    Scale(q, b, x);
  }

  method Extremes(fld: seq<real>) returns (rmin: real, rmax: real)
    requires fld != []
    ensures rmin in fld && rmax in fld && forall j :: 0 <= j < |fld| ==> rmin <= fld[j] <= rmax
  {
    rmin, rmax := fld[0], fld[0];
    for j := 1 to |fld|
      invariant rmin in fld && rmax in fld && forall i :: 0 <= i < j ==> rmin <= fld[i] <= rmax
    {
      if fld[j] > rmax { rmax := fld[j]; }
      if fld[j] < rmin { rmin := fld[j]; }
    }
  }

  /** The four branches. */
  method Settle(lo: real, hi: real, nbits: nat, e: int, d: int) returns (t: Scaling)
    requires lo < hi
    ensures Chosen(t, lo, hi, nbits, e, d)
  {
    hide P2, P10, Rint, Scaled, Shifts.Pow2, CeilLog2;
    TensMonotone(lo, hi, d);
    if nbits == 0 && e == 0 {
      var imin, imax := Rint(Tens(lo, d)), Rint(Tens(hi, d));
      var maxdif := imax - imin;
      t := Scaling(imin as real, 0, CeilLog2(maxdif + 1), true);
    } else if e == 0 {
      var rmin, rmax := Tens(lo, d), Tens(hi, d);
      AtLeastTwo(nbits);
      var scale := FindScale(rmax - rmin, Shifts.Pow2(nbits) - 1);
      t := Scaling(rmin, scale, nbits, false);
    } else if nbits == 0 {
      var rmin := Tens(lo, d);
      var maxdif := Rint(Scaled(hi, rmin, e, d));
      t := Scaling(rmin, e, CeilLog2(maxdif + 1), false);
    } else {
      t := Scaling(Tens(lo, d), e, nbits, false);
    }
  }

  lemma {:induction false} AtLeastTwo(n: nat)
    requires n > 0
    ensures Shifts.Pow2(n) >= 2
  {
    Pow2Monotone(1, n);
    Pow2Small();
  }

  /** The field's codes, in order. */
  ghost function Codes(fld: seq<real>, t: Scaling, d: int): (r: seq<int>)
    ensures |r| == |fld| && forall j :: 0 <= j < |fld| ==> r[j] == Code(fld[j], t, d)
  {
    hide Code;
    seq(|fld|, j requires 0 <= j < |fld| => Code(fld[j], t, d))
  }

  /** A width outside 1 to 31 is taken as not given. */
  function Width(idrs: int): (nbits: nat)
  {
    if idrs <= 0 || idrs > 31 then 0 else idrs
  }

  function Lowest(fld: seq<real>): (v: real)
    requires fld != []
    ensures v in fld && forall j :: 0 <= j < |fld| ==> v <= fld[j]
  {
    var k := |fld| - 1;
    if k == 0 then fld[0] else
    var r := Lowest(fld[..k]);
    assert forall j :: 0 <= j < k ==> fld[..k][j] == fld[j];
    if fld[k] < r then fld[k] else r
  }

  function Highest(fld: seq<real>): (v: real)
    requires fld != []
    ensures v in fld && forall j :: 0 <= j < |fld| ==> fld[j] <= v
  {
    var k := |fld| - 1;
    if k == 0 then fld[0] else
    var r := Highest(fld[..k]);
    assert forall j :: 0 <= j < k ==> fld[..k][j] == fld[j];
    if fld[k] > r then fld[k] else r
  }

  /** `simpack`: the octets hold the codes of the field, padded to an octet; a constant field takes none. */
  method Simpack(fld: seq<real>, idrs: int, e: int, d: int, cpack: array<byte>) returns (t: Scaling, lcpack: nat)
    requires fld != []
    requires var w := WidthFor(Lowest(fld), Highest(fld), Width(idrs), e, d);
      Lowest(fld) != Highest(fld) && w > 0 ==> |fld| * w + 7 <= 8 * cpack.Length
    modifies cpack
    ensures Lowest(fld) == Highest(fld) ==>
      t == Scaling(Lowest(fld), e, 0, false) && lcpack == 0 && cpack[..] == old(cpack[..])
    ensures Lowest(fld) != Highest(fld) ==>
      && Chosen(t, Lowest(fld), Highest(fld), Width(idrs), e, d)
      && Holds(cpack, old(Bits(cpack[..])), Pad8(EncAll(Codes(fld, t, d), t.nbits)))
      && 8 * lcpack == |Pad8(EncAll(Codes(fld, t, d), t.nbits))|
    ensures Lowest(fld) != Highest(fld) ==> WidthSettled(fld, idrs, t, d)
  {
    hide P2, P10, Tens, Rint, Scaled, Shifts.Pow2, CeilLog2, WidthFor, Code, EncAll, Holds, Bits, Up8, Zeros, Lowest,
         Highest;
    var rmin, rmax := Extremes(fld);
    SameExtremes(fld, rmin, rmax);
    if rmin == rmax { return Scaling(rmin, e, 0, false), 0; }
    t := Settle(rmin, rmax, Width(idrs), e, d);
    SettledWidth(fld, idrs, t, e, d);
    var ifld := [];
    for j := 0 to |fld|
      invariant |ifld| == j && forall i :: 0 <= i < j ==> ifld[i] == Code(fld[i], t, d)
    {
      ifld := ifld + [Code(fld[j], t, d)];
    }
    assert ifld == Codes(fld, t, d);
    ghost var s := Bits(cpack[..]);
    HoldsNothing(cpack);
    HoldsSize(cpack, s, []);
    EncAllLength(ifld, t.nbits);
    ChosenWidth(t, rmin, rmax, Width(idrs), e, d);
    if t.nbits > 0 { AppendAll(cpack, ifld, t.nbits, s, [], 0); }
    assert [] + EncAll(ifld, t.nbits) == EncAll(ifld, t.nbits);
    var nbittot := |ifld| * t.nbits;
    nbittot := AppendPad(cpack, nbittot, s, EncAll(ifld, t.nbits), nbittot);
    lcpack := nbittot / 8;
  }

  /** The width from 1 to 31 that was asked for; without one the least that holds every code. */
  ghost predicate WidthSettled(fld: seq<real>, idrs: int, t: Scaling, d: int)
  {
    hide Code, Shifts.Pow2;
    if 1 <= idrs <= 31 then t.nbits == idrs else
    && (forall j :: 0 <= j < |fld| ==> Code(fld[j], t, d) < Shifts.Pow2(t.nbits))
    && (t.nbits > 0 ==> exists j :: 0 <= j < |fld| && Code(fld[j], t, d) >= Shifts.Pow2(t.nbits - 1))
  }

  lemma {:induction false} SettledWidth(fld: seq<real>, idrs: int, t: Scaling, e: int, d: int)
    requires fld != [] && Chosen(t, Lowest(fld), Highest(fld), Width(idrs), e, d)
    ensures WidthSettled(fld, idrs, t, d)
  {
    hide P10, Tens, Rint, Scaled, P2, Shifts.Pow2, CeilLog2, Lowest, Highest, Code, Chosen;
    var lo, hi := Lowest(fld), Highest(fld);
    if 1 <= idrs <= 31 {
      ChosenWidth(t, lo, hi, Width(idrs), e, d);
    } else {
      TopLeast(lo, hi, t, e, d);
      forall j | 0 <= j < |fld| ensures Code(fld[j], t, d) < Shifts.Pow2(t.nbits) {
        CodesFit(fld[j], lo, hi, t, 0, e, d);
      }
      var k :| 0 <= k < |fld| && fld[k] == hi;
    }
  }

  lemma {:induction false} TopLeast(lo: real, hi: real, t: Scaling, e: int, d: int)
    requires Chosen(t, lo, hi, 0, e, d)
    ensures t.nbits > 0 ==> Code(hi, t, d) >= Shifts.Pow2(t.nbits - 1)
  {
    hide P10, Tens, Rint, Scaled, P2, Shifts.Pow2, CeilLog2;
    if t.nbits > 0 {
      var top := Code(hi, t, d);
      assert t.nbits == CeilLog2(top + 1);
    }
  }

  lemma {:induction false} SameExtremes(fld: seq<real>, rmin: real, rmax: real)
    requires rmin in fld && rmax in fld && forall j :: 0 <= j < |fld| ==> rmin <= fld[j] <= rmax
    ensures rmin == Lowest(fld) && rmax == Highest(fld)
  {
  }

  /** The values that n codes at the front of the bits stand for; the reference when they have no width. */
  ghost function SimpleReals(u: seq<bit>, t: Scaling, d: int, n: nat): (r: Option<seq<real>>)
    ensures r.Some? ==> |r.value| == n
  {
    hide RealOf, DecAll;
    if t.nbits == 0 then Some(seq(n, _ => t.ref))
    else if n * t.nbits > |u| then None
    else Some(RealsFor(DecAll(u, t.nbits, n), t, d))
  }

  ghost function RealsFor(codes: seq<int>, t: Scaling, d: int): (r: seq<real>)
    ensures |r| == |codes| && forall j :: 0 <= j < |codes| ==> r[j] == RealOf(codes[j], t.ref, t.e, d)
  {
    hide RealOf;
    seq(|codes|, j requires 0 <= j < |codes| => RealOf(codes[j], t.ref, t.e, d))
  }

  /** `simunpack` */
  method Simunpack(cpack: array<byte>, t: Scaling, d: int, ndpts: nat) returns (ierr: int, fld: seq<real>)
    ensures ierr == 0 || ierr == 2
    ensures SimpleReals(Bits(cpack[..]), t, d, ndpts) == if ierr == 0 then Some(fld) else None
  {
    hide RealOf, DecAll, Bits;
    fld := [];
    if t.nbits == 0 { return 0, seq(ndpts, _ => t.ref); }
    if t.nbits * ndpts > 8 * cpack.Length { return 2, []; }
    assert Bits(cpack[..])[0..] == Bits(cpack[..]);
    var ifld := GbitsRun(cpack, 0, t.nbits, ndpts);
    for j := 0 to ndpts
      invariant |fld| == j && forall i :: 0 <= i < j ==> fld[i] == RealOf(ifld[i], t.ref, t.e, d)
    {
      fld := fld + [RealOf(ifld[j], t.ref, t.e, d)];
    }
    assert fld == RealsFor(ifld, t, d);
    return 0, fld;
  }

  // ----- exactly when the field is restored to within half a step

  /** The greatest code fits the width, which only a caller who gives both width and scale can get wrong. */
  predicate WideEnough(lo: real, hi: real, nbits: nat, e: int, d: int)
  {
    nbits > 0 && e != 0 ==> Rint(Scaled(hi, Tens(lo, d), e, d)) < Shifts.Pow2(nbits)
  }

  /** What every point becomes when the width comes to 0: the reference as stored, still scaled by 10^d. */
  function Flat(lo: real, e: int, d: int): (v: real)
  {
    if e == 0 then Rint(Tens(lo, d)) as real else Tens(lo, d)
  }

  predicate FlatSuffices(lo: real, hi: real, e: int, d: int)
  {
    Close(Flat(lo, e, d), lo, HalfStep(e, d)) && Close(Flat(lo, e, d), hi, HalfStep(e, d))
  }

  predicate Restorable(lo: real, hi: real, nbits: nat, e: int, d: int)
  {
    if WidthFor(lo, hi, nbits, e, d) == 0 then FlatSuffices(lo, hi, e, d) else WideEnough(lo, hi, nbits, e, d)
  }

  lemma {:induction false} CodeNonnegative(v: real, lo: real, hi: real, t: Scaling, nbits: nat, e: int, d: int)
    requires Chosen(t, lo, hi, nbits, e, d) && lo <= v <= hi
    ensures 0 <= Code(v, t, d) <= Code(hi, t, d)
  {
    hide P10, Tens, Rint, Scaled, P2, Shifts.Pow2, CeilLog2, WidthFor;
    CodesInRange(v, lo, hi, t, d);
    if !t.whole { LeastCode(lo, t.e, d); }
  }

  /** The greatest code fits the width exactly when the width is enough. */
  lemma {:induction false} TopFits(lo: real, hi: real, t: Scaling, nbits: nat, e: int, d: int)
    requires Chosen(t, lo, hi, nbits, e, d) && lo <= hi
    ensures Code(hi, t, d) < Shifts.Pow2(t.nbits) <==> WideEnough(lo, hi, nbits, e, d)
  {
    hide P10, Tens, Rint, Scaled, P2, Shifts.Pow2, CeilLog2;
    if nbits == 0 || e == 0 { CodesFit(hi, lo, hi, t, nbits, e, d); }
  }

  /** Off by more than half a step before unscaling is off by more than half a step after it. */
  lemma {:induction false} FarOff(x: real, y: real, ref: real, e: int, d: int)
    requires x - y < -0.5
    ensures !Close(Unscaled(x, ref, e, d), Unscaled(y, ref, e, d), HalfStep(e, d))
  {
    hide P2, P10;
    var a, u := P2(e), P10(-d);
    Positive(a, u);
    var z, g := x - y, a * u;
    Difference(x, y, ref, a, u);
    HalfBelow(Unscaled(x, ref, e, d), Unscaled(y, ref, e, d), z, g);
  }

  lemma {:induction false} Difference(x: real, y: real, ref: real, a: real, u: real)
    ensures (x * a + ref) * u - (y * a + ref) * u == (x - y) * (a * u)
  {
  }

  lemma {:induction false} HalfBelow(p: real, q: real, z: real, g: real)
    requires p - q == z * g && z < -0.5 && g > 0.0
    ensures !Close(p, q, 0.5 * g)
  {
    LessTimes(0.5, -z, g);
  }

  lemma {:induction false} WrappedBelow(c: int, w: nat)
    requires c >= Shifts.Pow2(w)
    ensures Low(c, w) <= c - Shifts.Pow2(w)
  {
    hide Low, Shifts.Pow2;
    LowIsMod(c, w);
    ModBelow(c, Shifts.Pow2(w));
  }

  lemma {:induction false} ModBelow(c: int, m: int)
    requires c >= m >= 1
    ensures c % m <= c - m
  {
    if c - m < m { assert c == m * 1 + (c - m); } else { assert c % m < m; }
  }

  /** One point comes back within half a step exactly when its code fits the width. */
  lemma {:induction false} PointRestored(v: real, lo: real, hi: real, t: Scaling, nbits: nat, e: int, d: int)
    requires Chosen(t, lo, hi, nbits, e, d) && lo <= v <= hi && t.nbits > 0
    ensures Close(RealOf(Low(Code(v, t, d), t.nbits), t.ref, t.e, d), v, HalfStep(t.e, d)) <==>
      Code(v, t, d) < Shifts.Pow2(t.nbits)
  {
    hide P10, Tens, Rint, Scaled, P2, Shifts.Pow2, CeilLog2, WidthFor, Low, HalfStep, Code, Unscaled;
    var c, w := Code(v, t, d), t.nbits;
    CodeNonnegative(v, lo, hi, t, nbits, e, d);
    CodeIsNearest(v, lo, hi, t, nbits, e, d);
    if c < Shifts.Pow2(w) {
      LowIdentity(c, w);
      WithinHalfStep(c, v, t.ref, t.e, d);
    } else {
      WrappedBelow(c, w);
      AtLeastTwo(w);
      UnscaledScaled(v, t.ref, t.e, d);
      FarOff(Low(c, w) as real, Scaled(v, t.ref, t.e, d), t.ref, t.e, d);
    }
  }

  /** What unpacking gives at each point. */
  predicate Unpacked(out: seq<real>, fld: seq<real>, t: Scaling, d: int)
  {
    |out| == |fld| &&
    forall j :: 0 <= j < |fld| ==>
      out[j] == if t.nbits == 0 then t.ref else RealOf(Low(Code(fld[j], t, d), t.nbits), t.ref, t.e, d)
  }

  predicate AllClose(out: seq<real>, fld: seq<real>, h: real)
  {
    |out| == |fld| && forall j :: 0 <= j < |fld| ==> Close(out[j], fld[j], h)
  }

  /** Every point comes back within half a step exactly when the field is restorable. */
  lemma {:induction false} FieldRestored(out: seq<real>, fld: seq<real>, t: Scaling, nbits: nat, e: int, d: int)
    requires fld != [] && Chosen(t, Lowest(fld), Highest(fld), nbits, e, d) && Unpacked(out, fld, t, d)
    ensures AllClose(out, fld, HalfStep(t.e, d)) <==> Restorable(Lowest(fld), Highest(fld), nbits, e, d)
  {
    hide P10, Tens, Rint, Scaled, P2, Shifts.Pow2, CeilLog2, WidthFor, Low, HalfStep, Code, RealOf, WideEnough, Lowest,
         Highest;
    var lo, hi := Lowest(fld), Highest(fld);
    var i, k :| 0 <= i < |fld| && 0 <= k < |fld| && fld[i] == lo && fld[k] == hi;
    if t.nbits > 0 {
      hide Chosen, Close;
      ChosenWidth(t, lo, hi, nbits, e, d);
      TopFits(lo, hi, t, nbits, e, d);
      forall j | 0 <= j < |fld|
        ensures Close(out[j], fld[j], HalfStep(t.e, d)) <==> Code(fld[j], t, d) < Shifts.Pow2(t.nbits)
        ensures Code(fld[j], t, d) <= Code(hi, t, d)
      {
        PointRestored(fld[j], lo, hi, t, nbits, e, d);
        CodeNonnegative(fld[j], lo, hi, t, nbits, e, d);
      }
    } else {
      FlatReference(t, lo, hi, nbits, e, d);
      assert out[i] == out[k] == t.ref;
    }
  }

  lemma {:induction false} FlatReference(t: Scaling, lo: real, hi: real, nbits: nat, e: int, d: int)
    requires Chosen(t, lo, hi, nbits, e, d) && t.nbits == 0
    ensures t.ref == Flat(lo, e, d) && t.e == e
  {
    hide P10, Tens, Rint, Scaled, P2, Shifts.Pow2, CeilLog2;
  }

  /** What packing the field comes to: the scaling and the bits. */
  ghost predicate PackedSimply(fld: seq<real>, nbits: nat, e: int, d: int, t: Scaling, bits: seq<bit>)
    requires fld != []
  {
    if Lowest(fld) == Highest(fld) then t == Scaling(Lowest(fld), e, 0, false) && bits == []
    else Chosen(t, Lowest(fld), Highest(fld), nbits, e, d) && bits == Pad8(EncAll(Codes(fld, t, d), t.nbits))
  }

  /** The codes at the front of the bits are read as they were packed, modulo 2^w. */
  lemma {:induction false} CodesRead(codes: seq<int>, w: nat, extra: seq<bit>)
    ensures |codes| * w <= |Pad8(EncAll(codes, w)) + extra|
    ensures DecAll(Pad8(EncAll(codes, w)) + extra, w, |codes|) == LowAll(codes, w)
  {
    hide EncAll, DecAll, Up8, Zeros, LowAll;
    var e := EncAll(codes, w);
    var pad := Zeros(Up8(|e|) - |e|);
    Assoc(e, pad, extra);
    DecEncAll(codes, w, pad + extra);
  }

  /**
   * A packed field, with whatever follows its octets: a constant field comes back exactly, any
   * other within half a step at every point exactly when it is restorable.
   */
  lemma {:induction false} SimpleRestored(fld: seq<real>, nbits: nat, e: int, d: int, t: Scaling, bits: seq<bit>,
                                          extra: seq<bit>)
    requires fld != [] && PackedSimply(fld, nbits, e, d, t, bits)
    ensures var r := SimpleReals(bits + extra, t, d, |fld|);
      && r.Some? && r == SimpleReals(bits, t, d, |fld|)
      && (Lowest(fld) == Highest(fld) ==> r.value == fld)
      && (Lowest(fld) != Highest(fld) ==>
            (AllClose(r.value, fld, HalfStep(t.e, d)) <==> Restorable(Lowest(fld), Highest(fld), nbits, e, d)))
  {
    hide P2, P10, Tens, Rint, Scaled, Shifts.Pow2, CeilLog2, WidthFor, Code, EncAll, DecAll, Up8, Zeros, Lowest,
         Highest, Chosen, RealOf, HalfStep, Low, AllClose, Restorable;
    if Lowest(fld) != Highest(fld) {
      var codes := Codes(fld, t, d);
      CodesRead(codes, t.nbits, extra);
      CodesRead(codes, t.nbits, []);
      assert bits + [] == bits;
      var out := SimpleReals(bits + extra, t, d, |fld|).value;
      assert Unpacked(out, fld, t, d);
      FieldRestored(out, fld, t, nbits, e, d);
    }
  }

  // ----- when another reference is stored

  /** How far another reference moves the values; those without codes are the reference itself. */
  function Drift(ref: real, ref': real, flat: bool, d: int): (h: real)
    ensures h >= 0.0 && (ref == ref' ==> h == 0.0)
  {
    var a := Ieee.Abs(ref' - ref);
    if flat then a else NonnegativeProduct(a, P10(-d)); a * P10(-d)
  }

  lemma {:induction false} RefShifts(i: int, ref: real, ref': real, e: int, d: int)
    ensures Close(RealOf(i, ref', e, d), RealOf(i, ref, e, d), Drift(ref, ref', false, d))
  {
    hide P2, P10;
    var x, u := i as real * P2(e), P10(-d);
    assert (x + ref') * u - (x + ref) * u == (ref' - ref) * u;
  }

  lemma {:induction false} SimpleShifted(u: seq<bit>, t: Scaling, t': Scaling, d: int, n: nat)
    requires t'.e == t.e && t'.nbits == t.nbits
    ensures var r, r' := SimpleReals(u, t, d, n), SimpleReals(u, t', d, n);
      && (r.Some? <==> r'.Some?) && (t.ref == t'.ref ==> r == r')
      && (r.Some? ==> AllClose(r'.value, r.value, Drift(t.ref, t'.ref, t.nbits == 0, d)))
  {
    hide RealOf, DecAll, Drift;
    if t.nbits == 0 {
      FlatShifts(t.ref, t'.ref, d);
    } else if n * t.nbits <= |u| {
      var codes := DecAll(u, t.nbits, n);
      if t.ref == t'.ref { assert RealsFor(codes, t, d) == RealsFor(codes, t', d); }
      forall j | 0 <= j < n
        ensures Close(RealOf(codes[j], t'.ref, t.e, d), RealOf(codes[j], t.ref, t.e, d), Drift(t.ref, t'.ref, false, d))
      {
        RefShifts(codes[j], t.ref, t'.ref, t.e, d);
      }
    }
  }

  lemma {:induction false} FlatShifts(ref: real, ref': real, d: int)
    ensures Close(ref', ref, Drift(ref, ref', true, d))
  {
  }

  lemma {:induction false} CloseTwice(out: seq<real>, mid: seq<real>, fld: seq<real>, h: real, k: real)
    requires AllClose(out, mid, k) && AllClose(mid, fld, h)
    ensures AllClose(out, fld, h + k)
  {
    forall j | 0 <= j < |fld| ensures Close(out[j], fld[j], h + k) {
      assert Close(out[j], mid[j], k) && Close(mid[j], fld[j], h);
    }
  }

  /** Packing and unpacking through the octet array. */
  method PackThenUnpack(fld: seq<real>, idrs: int, e: int, d: int, cpack: array<byte>)
    returns (t: Scaling, out: seq<real>)
    requires fld != []
    requires var w := WidthFor(Lowest(fld), Highest(fld), Width(idrs), e, d);
      Lowest(fld) != Highest(fld) && w > 0 ==> |fld| * w + 7 <= 8 * cpack.Length
    modifies cpack
    ensures Lowest(fld) == Highest(fld) ==> out == fld
    ensures Lowest(fld) != Highest(fld) ==>
      (AllClose(out, fld, HalfStep(t.e, d)) <==> Restorable(Lowest(fld), Highest(fld), Width(idrs), e, d))
  {
    hide Shifts.Pow2, CeilLog2, WidthFor, Code, EncAll, Bits, Up8, Zeros, Lowest, Highest, Chosen, HalfStep, AllClose,
         Restorable, SimpleReals;
    ghost var s := Bits(cpack[..]);
    var lcpack, ierr;
    t, lcpack := Simpack(fld, idrs, e, d, cpack);
    ghost var bits := if Lowest(fld) == Highest(fld) then [] else Pad8(EncAll(Codes(fld, t, d), t.nbits));
    ghost var extra := Bits(cpack[..])[|bits|..];
    assert Bits(cpack[..]) == bits + extra;
    SimpleRestored(fld, Width(idrs), e, d, t, bits, extra);
    ierr, out := Simunpack(cpack, t, d, |fld|);
  }

  lemma {:induction false} ChosenWidth(t: Scaling, lo: real, hi: real, nbits: nat, e: int, d: int)
    requires Chosen(t, lo, hi, nbits, e, d)
    ensures t.nbits == WidthFor(lo, hi, nbits, e, d)
  {
    hide P2, P10, Tens, Rint, Scaled, Shifts.Pow2, CeilLog2, WidthFor;
  }

  /** With width 0 the code 0 would be near enough everywhere, had the reference been unscaled. */
  lemma {:induction false} FlatDecoded(v: real, lo: real, hi: real, e: int, d: int)
    requires WidthFor(lo, hi, 0, e, d) == 0 && lo <= v <= hi
    ensures Close(RealOf(0, Flat(lo, e, d), e, d), v, HalfStep(e, d))
  {
    hide P10, Tens, Rint, Scaled, P2, CeilLog2, Close, HalfStep, RealOf;
    var t := Scaling(Flat(lo, e, d), e, 0, e == 0);
    CodesFit(v, lo, hi, t, 0, e, d);
    assert Shifts.Pow2(0) == 1;
    CodeIsNearest(v, lo, hi, t, 0, e, d);
    WithinHalfStep(0, v, t.ref, e, d);
  }

  /** Without decimal scaling a range that rounds to nothing is harmless. */
  lemma {:induction false} FlatUnscaled(lo: real, hi: real, e: int)
    requires WidthFor(lo, hi, 0, e, 0) == 0 && lo <= hi
    ensures FlatSuffices(lo, hi, e, 0)
  {
    hide Tens, Rint, Scaled, P2, CeilLog2, Close, HalfStep, Flat, WidthFor;
    FlatDecoded(lo, lo, hi, e, 0);
    FlatDecoded(hi, lo, hi, e, 0);
    assert P10(0) == 1.0;
    assert RealOf(0, Flat(lo, e, 0), e, 0) == Flat(lo, e, 0);
  }

  /** With decimals kept and no binary scale it is harmless exactly when the least value rounds to 0. */
  lemma {:induction false} FlatScaled(lo: real, hi: real, d: int)
    requires WidthFor(lo, hi, 0, 0, d) == 0 && lo <= hi && d > 0
    ensures FlatSuffices(lo, hi, 0, d) <==> Rint(Tens(lo, d)) == 0
  {
    hide Tens, Rint, Scaled, P2, P10, CeilLog2, Close, HalfStep, WidthFor;
    var r := Rint(Tens(lo, d));
    if r == 0 {
      FlatDecoded(lo, lo, hi, 0, d);
      FlatDecoded(hi, lo, hi, 0, d);
      assert RealOf(0, 0.0, 0, d) == 0.0;
    } else {
      TenAtLeast(d);
      StillScaled(lo, r, d);
    }
  }

  lemma {:induction false} TenAtLeast(d: int)
    requires d > 0
    ensures P10(d) >= 10.0
  {
    PowTen(d);
  }

  lemma {:induction false} PowTen(n: nat)
    ensures Pow(10.0, n) >= 1.0 && (n > 0 ==> Pow(10.0, n) >= 10.0)
  {
    if n > 0 { PowTen(n - 1); }
  }

  /** A reference other than 0, left scaled, is more than half a step away. */
  lemma {:induction false} StillScaled(lo: real, r: int, d: int)
    requires P10(d) >= 10.0 && r != 0 && -0.5 <= Tens(lo, d) - r as real <= 0.5
    ensures !Close(r as real, lo, HalfStep(0, d))
  {
    hide P2, P10;
    P2Zero();
    P10Negated(d);
    var t, u, x := P10(d), P10(-d), r as real;
    if Close(x, lo, HalfStep(0, d)) {
      Scale(-0.5 * u, x - lo, t);
      Scale(x - lo, 0.5 * u, t);
      Undo(0.5, u, t);
      assert (x - lo) * t == x * t - Tens(lo, d);
      Apart(x, t);
      assert false;
    }
  }

  lemma {:induction false} Apart(x: real, t: real)
    requires t >= 10.0 && (x >= 1.0 || x <= -1.0)
    ensures x * t - x > 1.0 || x * t - x < -1.0
  {
    if x >= 1.0 { Scale(10.0, t, x); } else { Scale(10.0, t, -x); }
  }

  /** Half a step without binary scale, told on the scaled values. */
  lemma {:induction false} CloseScaled(u: real, v: real, d: int)
    ensures Close(u, v, HalfStep(0, d)) <==> -0.5 <= u * P10(d) - Tens(v, d) <= 0.5
  {
    hide P2, P10;
    P2Zero();
    P10Negated(d);
    Apart2(u, v, P10(d));
    SameBound(u - v, u * P10(d) - Tens(v, d), P10(d), P10(-d));
  }

  lemma {:induction false} Apart2(u: real, v: real, t: real)
    ensures u * t - v * t == (u - v) * t
  {
  }

  lemma {:induction false} SameBound(z: real, y: real, t: real, w: real)
    requires y == z * t && t > 0.0 && w > 0.0 && t * w == 1.0
    ensures -(0.5 * w) <= z <= 0.5 * w <==> -0.5 <= y <= 0.5
  {
    var h := 0.5 * w;
    Undo(0.5, w, t);
    SameSide(z, y, h, t);
    SameSide(-z, -y, h, t);
  }

  lemma {:induction false} SameSide(z: real, y: real, h: real, t: real)
    requires y == z * t && t > 0.0 && h * t == 0.5
    ensures z <= h <==> y <= 0.5
  {
    if z <= h { Scale(z, h, t); } else { LessTimes(h, z, t); }
  }

  lemma {:induction false} TenthAtMost(d: int)
    requires d < 0
    ensures 0.0 < P10(d) <= 0.1
  {
    hide P10;
    TenAtLeast(-d);
    P10Negated(d);
    if P10(d) > 0.1 { LessTimes(0.1, P10(d), P10(-d)); }
  }

  /**
   * With decimals dropped and no binary scale it is harmless exactly when the least value rounds
   * to 0, or to 1 or -1 with all values close enough to 0.
   */
  lemma {:induction false} FlatShrunk(lo: real, hi: real, d: int)
    requires WidthFor(lo, hi, 0, 0, d) == 0 && lo <= hi && d < 0
    ensures var r := Rint(Tens(lo, d));
      FlatSuffices(lo, hi, 0, d) <==>
        r == 0 || (r == 1 && Tens(hi, d) <= 0.5 + P10(d)) || (r == -1 && Tens(lo, d) >= -0.5 - P10(d))
  {
    hide Tens, Rint, Scaled, P2, P10, CeilLog2, Close, HalfStep;
    var r, t := Rint(Tens(lo, d)), P10(d);
    TensMonotone(lo, hi, d);
    CeilLog2Zero(Rint(Tens(hi, d)) - r + 1);
    RintMonotone(Tens(lo, d), Tens(hi, d));
    TenthAtMost(d);
    CloseScaled(r as real, lo, d);
    CloseScaled(r as real, hi, d);
    Shrunk(r, t);
    Settled(r, r as real * t, t, Tens(lo, d), Tens(hi, d));
  }

  /** Values that round to r are all within a half of y, which is r shrunk tenfold or more. */
  lemma {:induction false} Settled(r: int, y: real, t: real, a: real, b: real)
    requires 0.0 < t <= 0.1 && a <= b && -0.5 <= a - r as real <= 0.5 && -0.5 <= b - r as real <= 0.5
    requires r >= 2 ==> y <= r as real - 1.5
    requires r <= -2 ==> y >= r as real + 1.5
    requires (r == 0 ==> y == 0.0) && (r == 1 ==> y == t) && (r == -1 ==> y == -t)
    ensures -0.5 <= y - a <= 0.5 && -0.5 <= y - b <= 0.5 <==>
      r == 0 || (r == 1 && b <= 0.5 + t) || (r == -1 && a >= -0.5 - t)
  {
  }

  lemma {:induction false} Shrunk(r: int, t: real)
    requires 0.0 < t <= 0.1
    ensures r >= 2 ==> r as real * t <= r as real - 1.5
    ensures r <= -2 ==> r as real * t >= r as real + 1.5
    ensures r == 0 ==> r as real * t == 0.0
    ensures r == 1 ==> r as real * t == t
    ensures r == -1 ==> r as real * t == -t
  {
    if r >= 2 { Scale(t, 0.1, r as real); } else if r <= -2 { Scale(t, 0.1, -r as real); }
  }

  /**
   * With both scales it is harmless exactly when the least value, left scaled, is near enough on
   * the side that the scaling moves it to.
   */
  lemma {:induction false} FlatMoved(lo: real, hi: real, e: int, d: int)
    requires WidthFor(lo, hi, 0, e, d) == 0 && lo <= hi && e != 0 && d != 0
    ensures FlatSuffices(lo, hi, e, d) <==>
      if lo >= 0.0 <==> d > 0 then Tens(lo, d) - lo <= HalfStep(e, d) else hi - Tens(lo, d) <= HalfStep(e, d)
  {
    hide Tens, Rint, Scaled, P2, P10, CeilLog2, HalfStep, WidthFor, RealOf;
    FlatDecoded(hi, lo, hi, e, d);
    NothingAdded(lo, e, d);
    MovedTo(lo, d);
  }

  lemma {:induction false} NothingAdded(lo: real, e: int, d: int)
    ensures RealOf(0, Tens(lo, d), e, d) == lo
  {
    hide P2, P10;
    P10Negated(d);
    Undo(lo, P10(d), P10(-d));
  }

  lemma {:induction false} MovedTo(lo: real, d: int)
    requires d != 0
    ensures if lo >= 0.0 <==> d > 0 then Tens(lo, d) >= lo else Tens(lo, d) <= lo
  {
    hide P10;
    var t := P10(d);
    if d > 0 { TenAtLeast(d); } else { TenthAtMost(d); }
    if lo > 0.0 {
      if d > 0 { Scale(1.0, t, lo); } else { Scale(t, 1.0, lo); }
    } else if lo < 0.0 {
      if d > 0 { Scale(1.0, t, -lo); } else { Scale(t, 1.0, -lo); }
    }
  }

  /** Such a field: the values come back multiplied by 10. */
  lemma {:induction false} NoSpread()
    ensures WidthFor(10.0, 10.01, 0, 0, 1) == 0 && !Restorable(10.0, 10.01, 0, 0, 1)
  {
    hide CeilLog2, FlatSuffices;
    TensOne();
    assert Rint(100.0) == 100 && Rint(100.1) == 100;
    CeilLog2Zero(1);
    FlatScaled(10.0, 10.01, 1);
  }

  lemma {:induction false} TensOne()
    ensures Tens(10.0, 1) == 100.0 && Tens(10.01, 1) == 100.1
  {
    assert Pow(10.0, 1) == 10.0 * Pow(10.0, 0) && P10(1) == 10.0;
  }
}
