/**
 * `compack`, `misspack` and `comunpack` on reals: scaling to integers, missing points told by
 * their value, and what comes back.
 */
module ComplexScaling {
  import opened Shifts
  import opened BitString
  import opened BitIO
  import opened FieldIO
  import opened Powers
  import opened Ieee
  import opened SimplePacking
  import opened Options
  import opened Cells
  import opened Differencing
  import opened ComplexFormat
  import opened ComplexRoundTrip
  import opened ComplexDecoder
  import opened ComplexPacking

  /** The missing option and the values that stand for missing points. */
  datatype Missing = Missing(missopt: nat, primary: real, secondary: real)

  predicate IsPrimary(v: real, x: Missing)
  {
    x.missopt >= 1 && v == x.primary
  }

  predicate IsSecondary(v: real, x: Missing)
  {
    x.missopt >= 2 && v == x.secondary && v != x.primary
  }

  predicate IsData(v: real, x: Missing)
  {
    !IsPrimary(v, x) && !IsSecondary(v, x)
  }

  function CellOf(v: real, x: Missing, t: Scaling, d: int): (c: Cell)
  {
    if IsPrimary(v, x) then Primary else if IsSecondary(v, x) then Secondary else Data(Code(v, t, d))
  }

  function CellsOf(fld: seq<real>, x: Missing, t: Scaling, d: int): (cs: seq<Cell>)
    ensures |cs| == |fld| && forall j :: 0 <= j < |fld| ==> cs[j] == CellOf(fld[j], x, t, d)
  {
    hide CellOf;
    seq(|fld|, j requires 0 <= j < |fld| => CellOf(fld[j], x, t, d))
  }

  // ----- the scale

  /** The least of the data and 1E37. */
  function LeastOr(fld: seq<real>, x: Missing): (lo: real)
    ensures forall j :: 0 <= j < |fld| && IsData(fld[j], x) ==> lo <= fld[j]
    ensures lo == TEN_TO_37 || exists j :: 0 <= j < |fld| && IsData(fld[j], x) && fld[j] == lo
  {
    if fld == [] then TEN_TO_37 else
    var k := |fld| - 1;
    var r := LeastOr(fld[..k], x);
    assert forall j :: 0 <= j < k ==> fld[..k][j] == fld[j];
    if IsData(fld[k], x) && fld[k] < r then fld[k] else r
  }

  /** What the reference is made of: the least of all, or of the data when there may be missing points. */
  function Least(fld: seq<real>, x: Missing): (lo: real)
    requires fld != []
    ensures forall j :: 0 <= j < |fld| && IsData(fld[j], x) ==> lo <= fld[j]
    ensures (x.missopt != 0 && lo == TEN_TO_37) || exists j :: 0 <= j < |fld| && IsData(fld[j], x) && fld[j] == lo
  {
    if x.missopt == 0 then Lowest(fld) else LeastOr(fld, x)
  }

  /** Without a binary scale the values and the reference are rounded apart. */
  function ScaleFor(lo: real, e: int, d: int): (t: Scaling)
  {
    if e == 0 then Scaling(Rint(Tens(lo, d)) as real, 0, 0, true) else Scaling(Tens(lo, d), e, 0, false)
  }

  lemma {:induction false} CodeNear(v: real, lo: real, e: int, d: int)
    ensures var t := ScaleFor(lo, e, d); Close(RealOf(Code(v, t, d), t.ref, t.e, d), v, HalfStep(t.e, d)) && t.e == e
  {
    hide P10, Tens, Rint, P2, SimplePacking.Scaled, RealOf, HalfStep;
    var t := ScaleFor(lo, e, d);
    if t.whole { WholeScaled(v, t.ref, d); }
    WithinHalfStep(Code(v, t, d), v, t.ref, t.e, d);
  }

  lemma {:induction false} CodeAtLeast(v: real, lo: real, e: int, d: int)
    requires lo <= v
    ensures Code(v, ScaleFor(lo, e, d), d) >= 0
    ensures v == lo ==> Code(v, ScaleFor(lo, e, d), d) == 0
  {
    hide P10, Tens, Rint, P2, SimplePacking.Scaled;
    CodesInRange(v, lo, v, ScaleFor(lo, e, d), d);
    if e != 0 { LeastCode(lo, e, d); }
  }

  function ScaleOf(fld: seq<real>, x: Missing, e: int, d: int): (t: Scaling)
    requires fld != []
  {
    ScaleFor(Least(fld, x), e, d)
  }

  /** The field as the group search is given it. */
  function ScaledCells(fld: seq<real>, x: Missing, e: int, d: int): (cs: seq<Cell>)
    requires fld != []
    ensures |cs| == |fld|
  {
    CellsOf(fld, x, ScaleOf(fld, x, e, d), d)
  }

  /** Scaled data are never negative, and only the missing points that the option allows occur. */
  lemma {:induction false} CellsEncodable(fld: seq<real>, x: Missing, e: int, d: int, order: nat)
    requires fld != [] && order <= 2 && x.missopt <= 2
    ensures Encodable(ScaledCells(fld, x, e, d), order, x.missopt)
  {
    hide Code, ScaleFor, DataOf, Least;
    var cs := ScaledCells(fld, x, e, d);
    forall v | v in DataOf(cs) ensures v >= 0 {
      DataOfSource(cs, v);
      var j :| 0 <= j < |cs| && cs[j] == Data(v);
      CodeAtLeast(fld[j], Least(fld, x), e, d);
    }
  }

  method FindLeast(fld: seq<real>, x: Missing) returns (lo: real)
    ensures lo == LeastOr(fld, x)
  {
    lo := TEN_TO_37;
    for j := 0 to |fld|
      invariant lo == LeastOr(fld[..j], x)
    {
      assert fld[..j + 1][..j] == fld[..j];
      if IsData(fld[j], x) && fld[j] < lo { lo := fld[j]; }
    }
    assert fld[..|fld|] == fld;
  }

  // ----- packing

  /** Only `compack` treats a constant field apart. */
  predicate ConstantField(fld: seq<real>, x: Missing)
    requires fld != []
  {
    x.missopt == 0 && Lowest(fld) == Highest(fld)
  }

  /** The template entries of a field that takes no groups. */
  function NoGroupsDrt(order: nat): (t: Drt)
  {
    Drt(order, 0, 0, 0, 0, 0, 0, 1, 0, 0, 0)
  }

  /** What packing the field may come to: scaling, template entries and bits, for some partition. */
  ghost predicate PackedReals(fld: seq<real>, x: Missing, e: int, d: int, order: nat, t: Scaling, drt: Drt,
                              bits: seq<bit>)
    requires fld != [] && order <= 2
  {
    if ConstantField(fld, x) then t == Scaling(Lowest(fld), e, 0, false) && drt == NoGroupsDrt(order) && bits == []
    else t == ScaleOf(fld, x, e, d) && exists lens :: PackedWith(ScaledCells(fld, x, e, d), x, order, drt, bits, lens)
  }

  ghost predicate PackedWith(cs: seq<Cell>, x: Missing, order: nat, drt: Drt, bits: seq<bit>, lens: seq<nat>)
    requires order <= 2
  {
    Partition(lens, |cs|) && drt == Template(cs, lens, order, x.missopt) && bits == Packed(cs, lens, order, x.missopt)
  }

  method PackCells(cells: seq<Cell>, x: Missing, order: nat, cpack: array<byte>) returns (drt: Drt, lcpack: nat)
    requires Packable(cells, order, x.missopt) && Room(cells, order, x.missopt, cpack.Length)
    modifies cpack
    ensures lcpack <= cpack.Length && cpack[lcpack..] == old(cpack[lcpack..])
    ensures exists lens :: PackedWith(cells, x, order, drt, Bits(cpack[..lcpack]), lens)
  {
    hide Room, Packed, TemplateOf, Bits, Holds, Groups, DataOf, Residual, Allowed;
    ghost var lens;
    ghost var a := cpack[..];
    drt, lcpack, lens := PackField(cells, order, x.missopt, cpack);
    PackedFront(cpack, a, lcpack, Packed(cells, lens, order, x.missopt));
    assert PackedWith(cells, x, order, drt, Bits(cpack[..lcpack]), lens);
  }

  /** `compack` without missing points and `misspack` with them. */
  method PackReals(fld: seq<real>, x: Missing, e: int, d: int, order: nat, cpack: array<byte>)
    returns (t: Scaling, drt: Drt, lcpack: nat)
    requires fld != [] && order <= 2
    requires !ConstantField(fld, x) ==> Packable(ScaledCells(fld, x, e, d), order, x.missopt)
    requires !ConstantField(fld, x) ==> Room(ScaledCells(fld, x, e, d), order, x.missopt, cpack.Length)
    modifies cpack
    ensures lcpack <= cpack.Length && cpack[lcpack..] == old(cpack[lcpack..])
    ensures PackedReals(fld, x, e, d, order, t, drt, Bits(cpack[..lcpack]))
  {
    hide Packable, Room, ScaleFor, CellsOf, Bits, Lowest, Highest, PackedWith, LeastOr;
    var rmin;
    if x.missopt == 0 {
      var rmax;
      rmin, rmax := SimplePacking.Extremes(fld);
      SameExtremes(fld, rmin, rmax);
      if rmin == rmax {
        NoBits();
        return Scaling(rmin, e, 0, false), NoGroupsDrt(order), 0;
      }
    } else {
      rmin := FindLeast(fld, x);
    }
    t := ScaleFor(rmin, e, d);
    var cells := CellsOf(fld, x, t, d);
    drt, lcpack := PackCells(cells, x, order, cpack);
  }

  lemma {:induction false} NoBits()
    ensures Bits([]) == []
  {
  }

  /** What an array holds at its front is the bits of its first octets, the others being kept. */
  lemma {:induction false} PackedFront(cpack: array<byte>, a: seq<byte>, n: nat, e: seq<bit>)
    requires |a| == cpack.Length && Holds(cpack, Bits(a), e) && 8 * n == |e|
    ensures n <= cpack.Length && Bits(cpack[..n]) == e && cpack[n..] == a[n..]
  {
    hide Bits;
    var s := Bits(cpack[..]);
    HoldsSize(cpack, Bits(a), e);
    BitsSlice(cpack[..], 0, n);
    BitsSlice(cpack[..], n, cpack.Length);
    BitsSlice(a, n, |a|);
    BitsInjective(cpack[..][n..cpack.Length], a[n..|a|]);
  }

  // ----- unpacking

  function PointOf(c: Cell, t: Scaling, d: int, x: Missing): (v: real)
  {
    match c
    case Data(i) => RealOf(i, t.ref, t.e, d)
    case Primary => x.primary
    case Secondary => x.secondary
  }

  function PointsOf(cs: seq<Cell>, t: Scaling, d: int, x: Missing): (r: seq<real>)
    ensures |r| == |cs| && forall j :: 0 <= j < |cs| ==> r[j] == PointOf(cs[j], t, d, x)
  {
    hide PointOf;
    seq(|cs|, j requires 0 <= j < |cs| => PointOf(cs[j], t, d, x))
  }

  /** The reals for what was decoded: the reference everywhere when there are no groups. */
  function RealsOf(c: Decoded, t: Scaling, d: int, x: Missing, ndpts: nat): (r: Option<seq<real>>)
  {
    match c
    case Constant => Some(seq(ndpts, _ => t.ref))
    case Field(cells) => Some(PointsOf(cells, t, d, x))
    case Invalid => None
  }

  /** `comunpack` */
  method UnpackReals(drt: Drt, t: Scaling, d: int, x: Missing, cpack: array<byte>, lensec: nat, ndpts: nat)
    returns (ok: bool, fld: seq<real>)
    requires (drt.ngroups > 0 && drt.order <= 2 ==> drt.order <= ndpts) && drt.missopt <= 2 && drt.nbitsd % 8 == 0
    ensures RealsOf(Decode(drt, Bits(cpack[..]), lensec, ndpts), t, d, x, ndpts) == if ok then Some(fld) else None
  {
    hide Decode, Bits, PointOf;
    var c := Comunpack(drt, cpack, lensec, ndpts);
    ok, fld := !c.Invalid?, [];
    if c.Constant? {
      fld := seq(ndpts, _ => t.ref);
    } else if c.Field? {
      for n := 0 to |c.cells|
        invariant fld == PointsOf(c.cells[..n], t, d, x)
      {
        fld := fld + [PointOf(c.cells[n], t, d, x)];
      }
      assert c.cells[..|c.cells|] == c.cells;
    }
  }

  // ----- what comes back

  /** Data to within h, missing points as they were. */
  ghost predicate Restored(out: seq<real>, fld: seq<real>, x: Missing, h: real)
  {
    && |out| == |fld|
    && forall j :: 0 <= j < |fld| ==> PointBack(out[j], fld[j], x, h)
  }

  predicate PointBack(w: real, v: real, x: Missing, h: real)
  {
    if IsData(v, x) then Close(w, v, h) else w == v
  }

  ghost predicate OnlyMissing(fld: seq<real>, x: Missing)
  {
    forall j :: 0 <= j < |fld| ==> !IsData(fld[j], x)
  }

  lemma {:induction false} MissingRestored(out: seq<real>, fld: seq<real>, x: Missing, h: real, k: real)
    requires OnlyMissing(fld, x)
    ensures Restored(out, fld, x, h) <==> Restored(out, fld, x, k)
  {
    hide IsData;
    if |out| == |fld| {
      assert forall j :: 0 <= j < |fld| ==> (PointBack(out[j], fld[j], x, h) <==> PointBack(out[j], fld[j], x, k));
    }
  }

  ghost predicate SecondaryOnly(fld: seq<real>, x: Missing)
  {
    x.missopt == 2 && forall j :: 0 <= j < |fld| ==> IsSecondary(fld[j], x)
  }

  /** A point scaled with one reference and unscaled with another. */
  lemma {:induction false} PointRestoredAt(v: real, x: Missing, lo: real, e: int, d: int, t': Scaling)
    requires t'.e == e
    ensures var t := ScaleFor(lo, e, d);
      PointBack(PointOf(CellOf(v, x, t, d), t', d, x), v, x, HalfStep(e, d) + Drift(t.ref, t'.ref, false, d))
  {
    hide P10, Tens, Rint, P2, SimplePacking.Scaled, RealOf, HalfStep, Code, ScaleFor, Drift;
    var t := ScaleFor(lo, e, d);
    CodeNear(v, lo, e, d);
    RefShifts(Code(v, t, d), t.ref, t'.ref, e, d);
  }

  lemma {:induction false} OnlyIsAll(fld: seq<real>, x: Missing, t: Scaling, d: int)
    requires x.missopt == 2
    ensures AllSecondary(CellsOf(fld, x, t, d)) <==> SecondaryOnly(fld, x)
  {
    hide Code;
    var cs := CellsOf(fld, x, t, d);
    forall j | 0 <= j < |fld| ensures cs[j] == Secondary <==> IsSecondary(fld[j], x) { }
  }

  /**
   * A packed field, with whatever follows its octets, is unpacked to within half a step at every
   * datum and exactly at every missing point, unless secondary missing points are all there is.
   * Another reference than the one packed with moves the data by its distance.
   */
  lemma {:induction false} RealsRestoredWith(fld: seq<real>, x: Missing, e: int, d: int, order: nat, t: Scaling,
                                             drt: Drt, bits: seq<bit>, extra: seq<bit>, lensec: nat, t': Scaling)
    requires fld != [] && order <= 2 && x.missopt <= 2 && PackedReals(fld, x, e, d, order, t, drt, bits)
    requires |bits| <= 8 * lensec && t'.e == e
    ensures var r := RealsOf(Decode(drt, bits + extra, lensec, |fld|), t', d, x, |fld|);
      && r.Some? && |r.value| == |fld|
      && (SecondaryOnly(fld, x) ==> forall h :: !Restored(r.value, fld, x, h))
      && (!SecondaryOnly(fld, x) ==>
            Restored(r.value, fld, x, HalfStep(e, d) + Drift(t.ref, t'.ref, ConstantField(fld, x), d)))
  {
    hide Decode, Template, Packed, CellsOf, Code, ScaleFor, Least, PointOf, Close, HalfStep, Partition, Lowest, Highest,
         AllSecondary, Drift, PointBack;
    if ConstantField(fld, x) {
      ConstantDecoded(order, bits + extra, lensec, |fld|);
      ConstantRestored(fld, x, e, d, t'.ref);
    } else {
      var cs := ScaledCells(fld, x, e, d);
      var lens :| PackedWith(cs, x, order, drt, bits, lens);
      CellsEncodable(fld, x, e, d, order);
      RoundTripExactly(cs, lens, order, x.missopt, extra, lensec);
      if x.missopt == 2 {
        OnlyIsAll(fld, x, t, d);
        if AllSecondary(cs) {
          AllSecondaryDecoded(cs, lens, order, extra, lensec);
          PrimaryInstead(fld, x, t', d, PointsOf(seq(|fld|, _ => Primary), t', d, x));
        }
      }
      forall j | 0 <= j < |fld|
        ensures PointBack(PointOf(CellOf(fld[j], x, t, d), t', d, x), fld[j], x,
                          HalfStep(e, d) + Drift(t.ref, t'.ref, false, d))
      {
        PointRestoredAt(fld[j], x, Least(fld, x), e, d, t');
      }
    }
  }

  lemma {:induction false} RealsRestored(fld: seq<real>, x: Missing, e: int, d: int, order: nat, t: Scaling, drt: Drt,
                                         bits: seq<bit>, extra: seq<bit>, lensec: nat)
    requires fld != [] && order <= 2 && x.missopt <= 2 && PackedReals(fld, x, e, d, order, t, drt, bits)
    requires |bits| <= 8 * lensec
    ensures var r := RealsOf(Decode(drt, bits + extra, lensec, |fld|), t, d, x, |fld|);
      r.Some? && |r.value| == |fld| && (Restored(r.value, fld, x, HalfStep(e, d)) <==> !SecondaryOnly(fld, x))
  {
    hide Decode, PackedReals, ConstantField, HalfStep, Restored, SecondaryOnly, RealsOf, Drift;
    SameScale(fld, x, e, d, order, t, drt, bits);
    RealsRestoredWith(fld, x, e, d, order, t, drt, bits, extra, lensec, t);
  }

  /** What follows the octets does not matter. */
  lemma {:induction false} ExtraIgnored(fld: seq<real>, x: Missing, e: int, d: int, order: nat, t: Scaling, drt: Drt,
                                        bits: seq<bit>, extra: seq<bit>, lensec: nat)
    requires fld != [] && order <= 2 && x.missopt <= 2 && PackedReals(fld, x, e, d, order, t, drt, bits)
    requires |bits| <= 8 * lensec
    ensures Decode(drt, bits + extra, lensec, |fld|) == Decode(drt, bits, lensec, |fld|)
  {
    hide Decode, Template, Packed, CellsOf, Code, ScaleFor, Least, Partition, Lowest, Highest, AllSecondary;
    if ConstantField(fld, x) {
      ConstantDecoded(order, bits + extra, lensec, |fld|);
      ConstantDecoded(order, bits, lensec, |fld|);
    } else {
      var cs := ScaledCells(fld, x, e, d);
      var lens :| PackedWith(cs, x, order, drt, bits, lens);
      assert bits + [] == bits;
      CellsEncodable(fld, x, e, d, order);
      RoundTripExactly(cs, lens, order, x.missopt, extra, lensec);
      RoundTripExactly(cs, lens, order, x.missopt, [], lensec);
      if x.missopt == 2 && AllSecondary(cs) {
        AllSecondaryDecoded(cs, lens, order, extra, lensec);
        AllSecondaryDecoded(cs, lens, order, [], lensec);
      }
    }
  }

  lemma {:induction false} SameScale(fld: seq<real>, x: Missing, e: int, d: int, order: nat, t: Scaling, drt: Drt,
                                     bits: seq<bit>)
    requires fld != [] && order <= 2 && PackedReals(fld, x, e, d, order, t, drt, bits)
    ensures t.e == e
  {
    hide Lowest, Highest, Least, Rint, Tens, ScaledCells, PackedWith;
  }

  lemma {:induction false} PrimaryInstead(fld: seq<real>, x: Missing, t: Scaling, d: int, out: seq<real>)
    requires fld != [] && SecondaryOnly(fld, x) && out == PointsOf(seq(|fld|, _ => Primary), t, d, x)
    ensures forall h :: !Restored(out, fld, x, h)
  {
    assert IsSecondary(fld[0], x);
    assert forall h :: !PointBack(out[0], fld[0], x, h);
  }

  lemma {:induction false} ConstantDecoded(order: nat, s: seq<bit>, lensec: nat, n: nat)
    ensures Decode(NoGroupsDrt(order), s, lensec, n) == Constant
  {
  }

  lemma {:induction false} ConstantRestored(fld: seq<real>, x: Missing, e: int, d: int, ref: real)
    requires fld != [] && ConstantField(fld, x)
    ensures Restored(seq(|fld|, _ => ref), fld, x, HalfStep(e, d) + Drift(Lowest(fld), ref, true, d))
    ensures !SecondaryOnly(fld, x) && seq(|fld|, _ => Lowest(fld)) == fld
  {
    hide Lowest, Highest, HalfStep, Drift;
    FlatShifts(Lowest(fld), ref, d);
  }

  /** Packing and unpacking through the octet array. */
  method PackAndUnpackReals(fld: seq<real>, x: Missing, e: int, d: int, order: nat, cpack: array<byte>)
    returns (ok: bool, out: seq<real>)
    requires fld != [] && order <= 2 && x.missopt <= 2
    requires !ConstantField(fld, x) ==> Packable(ScaledCells(fld, x, e, d), order, x.missopt)
    requires !ConstantField(fld, x) ==> Room(ScaledCells(fld, x, e, d), order, x.missopt, cpack.Length)
    modifies cpack
    ensures ok && (Restored(out, fld, x, HalfStep(e, d)) <==> !SecondaryOnly(fld, x))
  {
    hide Decode, Bits, Room, ScaledCells, PackedWith, Restored, SecondaryOnly, Lowest, Highest, ScaleOf, DataOf,
         Residual, Allowed, HalfStep;
    var t, drt, lcpack := PackReals(fld, x, e, d, order, cpack);
    ghost var bits := Bits(cpack[..lcpack]);
    EntriesFit(fld, x, e, d, order, t, drt, bits);
    BitsConcat(cpack[..lcpack], cpack[lcpack..]);
    assert cpack[..lcpack] + cpack[lcpack..] == cpack[..];
    ok, out := UnpackReals(drt, t, d, x, cpack, lcpack, |fld|);
    RealsRestored(fld, x, e, d, order, t, drt, bits, Bits(cpack[lcpack..]), lcpack);
  }

  lemma {:induction false} EntriesFit(fld: seq<real>, x: Missing, e: int, d: int, order: nat, t: Scaling, drt: Drt,
                                      bits: seq<bit>)
    requires fld != [] && order <= 2 && PackedReals(fld, x, e, d, order, t, drt, bits)
    ensures drt.order == order && drt.missopt == x.missopt && drt.nbitsd % 8 == 0
    ensures drt.ngroups > 0 ==> !ConstantField(fld, x)
    ensures order == 0 ==> drt.nbitsd == 0
  {
    hide Packed, Lowest, Highest, CellsOf, ScaleOf, Groups, DataOf, HeaderWidth, CeilLog2;
    if !ConstantField(fld, x) {
      var cs := ScaledCells(fld, x, e, d);
      var lens :| PackedWith(cs, x, order, drt, bits, lens);
      HeaderOctets(cs, lens, order, x.missopt);
    }
  }
}
