/**
 * `g2_unpack7` for simple and complex packing, and what the packing routines leave in a template
 * and in section 7 for it to read.
 */
module DataSection {
  import opened Options
  import opened Shifts
  import opened BitString
  import opened BitIO
  import opened FieldIO
  import opened Powers
  import opened Ieee
  import opened Sections
  import opened SectionReader
  import opened SimplePacking
  import Cells
  import opened ComplexFormat
  import opened ComplexRoundTrip
  import opened ComplexPacking
  import opened ComplexScaling

  // ----- reading the template

  predicate IsWord(v: int)
  {
    0 <= v < 0x1_0000_0000
  }

  predicate AllCounts(vs: seq<int>)
  {
    forall i :: 0 <= i < |vs| ==> vs[i] >= 0
  }

  /** The scaling that entries 0, 1 and 3 stand for. */
  function ScalingIn(tmpl: seq<int>): (t: Scaling)
    requires |tmpl| >= 5 && IsWord(tmpl[0]) && tmpl[3] >= 0
  {
    hide Value;
    Scaling(Value(tmpl[0]), tmpl[1], tmpl[3], false)
  }

  /** Template 5.2 has 16 entries, 5.3 two more; from the fourth on they are counts and patterns. */
  predicate ComplexEntries(dnum: int, tmpl: seq<int>)
  {
    && (dnum == 2 || dnum == 3) && |tmpl| == (if dnum == 2 then 16 else 18)
    && IsWord(tmpl[0]) && AllCounts(tmpl[3..]) && IsWord(tmpl[7]) && IsWord(tmpl[8])
  }

  /** An order other than 1 and 2 has a header all the same. */
  function OrderIn(dnum: int, tmpl: seq<int>): (order: nat)
    requires ComplexEntries(dnum, tmpl)
  {
    if dnum == 2 then 0 else if tmpl[16] == 1 || tmpl[16] == 2 then tmpl[16] else 3
  }

  function DrtIn(dnum: int, tmpl: seq<int>): (t: Drt)
    requires ComplexEntries(dnum, tmpl)
  {
    assert forall i :: 3 <= i < |tmpl| ==> tmpl[i] == tmpl[3..][i - 3];
    Drt(OrderIn(dnum, tmpl), tmpl[6], tmpl[3], tmpl[9], tmpl[10], tmpl[11], tmpl[12], tmpl[13], tmpl[14], tmpl[15],
        if dnum == 2 then 0 else 8 * tmpl[17])
  }

  function MissingIn(tmpl: seq<int>): (x: Missing)
    requires |tmpl| >= 9 && tmpl[6] >= 0 && IsWord(tmpl[7]) && IsWord(tmpl[8])
  {
    hide Value;
    if tmpl[4] == 0 then Missing(tmpl[6], Value(tmpl[7]), Value(tmpl[8]))
    else Missing(tmpl[6], tmpl[7] as real, tmpl[8] as real)
  }

  /** Elsewhere the original writes behind its array, or leaves the field untouched. */
  predicate Legible(dnum: int, tmpl: seq<int>, ndpts: int)
    requires ComplexEntries(dnum, tmpl)
  {
    assert tmpl[6] == tmpl[3..][3];
    tmpl[6] <= 2 && (tmpl[9] > 0 && OrderIn(dnum, tmpl) <= 2 ==> OrderIn(dnum, tmpl) <= ndpts)
  }

  /** `g2_unpack7` for templates 5.0, 5.2 and 5.3: the bits s start at section 7. */
  ghost function Unpack7(grid: Option<GridRecord>, repr: Option<DataRecord>, s: seq<bit>): (r: Option<seq<real>>)
  {
    hide SimpleReals, RealsOf, Decode, Value, Dec;
    if repr.None? || !IsSection(s, 7) || repr.value.ndpts < 0 then None else
    var n, dnum, tmpl := repr.value.ndpts, repr.value.dnum, repr.value.dtmpl;
    if dnum == 0 && |tmpl| == 5 && IsWord(tmpl[0]) && tmpl[3] >= 0 then
      SimpleReals(s[40..], ScalingIn(tmpl), tmpl[2], n)
    else if ComplexEntries(dnum, tmpl) && Legible(dnum, tmpl, n) then
      (assert tmpl[6] == tmpl[3..][3];
       RealsOf(Decode(DrtIn(dnum, tmpl), s[40..], Length(s), n), Scaling(Value(tmpl[0]), tmpl[1], 0, false), tmpl[2],
               MissingIn(tmpl), n))
    else None
  }

  predicate Modelled(repr: Option<DataRecord>)
  {
    repr.Some? ==> repr.value.dnum in {0, 2, 3}
  }

  /** `g2_unpack7`, given what it does for the other templates. */
  ghost function AnyTemplate(other: Unpacker): (unp: Unpacker)
  {
    (grid, repr, s) => if Modelled(repr) then Unpack7(grid, repr, s) else other(grid, repr, s)
  }

  lemma {:induction false} AnyTemplateIs(other: Unpacker, grid: Option<GridRecord>, repr: Option<DataRecord>,
                                         s: seq<bit>)
    ensures AnyTemplate(other)(grid, repr, s) == if Modelled(repr) then Unpack7(grid, repr, s) else other(grid, repr, s)
  {
    hide Unpack7;
  }

  /** The octets from p on, as the original passes them. */
  method Octets7(cgrib: array<byte>, p: nat) returns (rest: array<byte>)
    requires p <= cgrib.Length
    ensures fresh(rest) && Bits(rest[..]) == Bits(cgrib[..])[8 * p..]
  {
    hide Bits;
    rest := new byte[cgrib.Length - p](i requires 0 <= i < cgrib.Length - p reads cgrib => cgrib[p + i]);
    assert rest[..] == cgrib[..][p..];
    BitsSlice(cgrib[..], p, cgrib.Length);
    assert cgrib[..][p..cgrib.Length] == cgrib[..][p..];
  }

  /** `g2_unpack7` on octets. */
  method UnpackSection(cgrib: array<byte>, ipos: nat, ghost grid: Option<GridRecord>, repr: Option<DataRecord>)
    returns (r: Option<seq<real>>)
    requires ipos <= cgrib.Length
    ensures r == Unpack7(grid, repr, Bits(cgrib[..])[8 * ipos..])
  {
    hide Bits, SimpleReals, RealsOf, Decode, Value, Dec;
    var ok, lensec, isecnum := ReadHead(cgrib, 8 * ipos);
    if repr.None? || !ok || isecnum != 7 || repr.value.ndpts < 0 { return None; }
    var n, dnum, tmpl := repr.value.ndpts, repr.value.dnum, repr.value.dtmpl;
    var rest := Octets7(cgrib, ipos + 5);
    if dnum == 0 && |tmpl| == 5 && IsWord(tmpl[0]) && tmpl[3] >= 0 {
      var ref := ReadPattern(tmpl[0]);
      var ierr, fld := Simunpack(rest, Scaling(ref, tmpl[1], tmpl[3], false), tmpl[2], n);
      r := if ierr == 0 then Some(fld) else None;
    } else if ComplexEntries(dnum, tmpl) && Legible(dnum, tmpl, n) {
      var ref := ReadPattern(tmpl[0]);
      assert tmpl[6] == tmpl[3..][3];
      var x := MissingIn(tmpl);
      var fld;
      ok, fld := UnpackReals(DrtIn(dnum, tmpl), Scaling(ref, tmpl[1], 0, false), tmpl[2], x, rest, lensec, n);
      r := if ok then Some(fld) else None;
    } else {
      r := None;
    }
  }

  // ----- what the packing routines leave

  ghost predicate Represents(w: word, v: real)
  {
    Finite(w) && w != TWO31 && Value(w) == v
  }

  /** A 32-bit float, as the reference is before it is stored. */
  ghost predicate IsFloat(v: real)
  {
    exists w: word :: Represents(w, v)
  }

  /** Its pattern stands for it. */
  lemma {:induction false} PatternOfFloat(v: real, ieee: int)
    requires IsFloat(v) && IsPattern(v, ieee)
    ensures IsWord(ieee) && Value(ieee) == v
  {
    hide Value, IsPattern, Finite;
    var w: word :| Represents(w, v);
    PatternRoundTrip(w, ieee);
  }

  /** Which routine packed a field: given a width and scales, or scales and the differencing order. */
  datatype Packer = Simply(nbits: nat, e: int, d: int) | Complexly(e: int, d: int, order: nat)

  /** The number of the template. */
  function NumberFor(p: Packer): (dnum: int)
  {
    if p.Simply? then 0 else if p.order == 0 then 2 else 3
  }

  ghost predicate SimplyWith(pf: seq<real>, p: Packer, tmpl: seq<int>, cpack: seq<byte>, t: Scaling)
    requires pf != [] && p.Simply?
  {
    && PackedSimply(pf, p.nbits, p.e, p.d, t, Bits(cpack))
    && |tmpl| == 5 && IsPattern(t.ref, tmpl[0]) && tmpl[1] == t.e && tmpl[2] == p.d && tmpl[3] == t.nbits
  }

  ghost predicate ComplexlyWith(pf: seq<real>, p: Packer, tmpl: seq<int>, cpack: seq<byte>, t: Scaling)
    requires pf != [] && p.Complexly?
  {
    var dnum := NumberFor(p);
    && p.order <= 2 && ComplexEntries(dnum, tmpl) && Legible(dnum, tmpl, |pf|) && (p.order > 0 ==> tmpl[16] == p.order)
    && PackedReals(pf, MissingIn(tmpl), p.e, p.d, p.order, t, DrtIn(dnum, tmpl), Bits(cpack))
    && IsPattern(t.ref, tmpl[0]) && tmpl[1] == p.e && tmpl[2] == p.d && tmpl[4] == 0
  }

  /** The number, the entries and the octets of section 7 are what the routine makes of the points. */
  ghost predicate PackedAs(pf: seq<real>, p: Packer, dnum: int, tmpl: seq<int>, cpack: seq<byte>)
    requires pf != []
  {
    && dnum == NumberFor(p)
    && if p.Simply? then exists t :: SimplyWith(pf, p, tmpl, cpack, t)
       else exists t :: ComplexlyWith(pf, p, tmpl, cpack, t)
  }

  /** The points that are not data but missing. */
  ghost function MissingFor(p: Packer, tmpl: seq<int>): (x: Missing)
  {
    if p.Complexly? && |tmpl| >= 9 && tmpl[6] >= 0 && IsWord(tmpl[7]) && IsWord(tmpl[8]) then MissingIn(tmpl)
    else Missing(0, 0.0, 0.0)
  }

  /** Exactly the fields that come back. */
  ghost predicate Faithful(pf: seq<real>, p: Packer, tmpl: seq<int>)
    requires pf != []
  {
    match p
    case Simply(nbits, e, d) => Lowest(pf) == Highest(pf) || Restorable(Lowest(pf), Highest(pf), nbits, e, d)
    case Complexly(_, _, _) => !SecondaryOnly(pf, MissingFor(p, tmpl))
  }

  /** The reference that the routine takes, before it is stored as a pattern. */
  ghost function RefFor(pf: seq<real>, p: Packer, x: Missing): (ref: real)
    requires pf != []
  {
    hide Lowest, Highest, Tens, Rint, ScaleOf;
    match p
    case Simply(nbits, e, d) =>
      if Lowest(pf) == Highest(pf) then Lowest(pf)
      else if nbits == 0 && e == 0 then Rint(Tens(Lowest(pf), d)) as real
      else Tens(Lowest(pf), d)
    case Complexly(e, d, _) => if ConstantField(pf, x) then Lowest(pf) else ScaleOf(pf, x, e, d).ref
  }

  /** Nothing but the reference is stored. */
  predicate NoCodes(pf: seq<real>, p: Packer, x: Missing)
    requires pf != []
  {
    hide Lowest, Highest, WidthFor;
    match p
    case Simply(nbits, e, d) => Lowest(pf) == Highest(pf) || WidthFor(Lowest(pf), Highest(pf), nbits, e, d) == 0
    case Complexly(_, _, _) => ConstantField(pf, x)
  }

  /** How far the values move because the reference is stored as a 32-bit pattern. */
  ghost function Rounding(pf: seq<real>, p: Packer, tmpl: seq<int>): (h: real)
    requires pf != [] && |tmpl| >= 3
    ensures h >= 0.0
  {
    hide Value, RefFor, NoCodes, Drift, MissingFor;
    var x := MissingFor(p, tmpl);
    if IsWord(tmpl[0]) then Drift(RefFor(pf, p, x), Value(tmpl[0]), NoCodes(pf, p, x), p.d) else 0.0
  }

  /** The reference is stored as it is, or there are no values that it matters to. */
  ghost predicate Exact(pf: seq<real>, p: Packer, tmpl: seq<int>)
    requires pf != []
  {
    hide RefFor, IsFloat, OnlyMissing, MissingFor;
    IsFloat(RefFor(pf, p, MissingFor(p, tmpl))) || OnlyMissing(pf, MissingFor(p, tmpl))
  }

  /**
   * What unpacking gives: data to within half a step and what the stored reference is off, missing
   * points exactly, if the packing was faithful; and only then, to within half a step, if the
   * reference is stored exactly.
   */
  ghost predicate Gained(out: seq<real>, pf: seq<real>, p: Packer, tmpl: seq<int>)
    requires pf != []
  {
    hide Restored, Faithful, Exact, Rounding, MissingFor, HalfStep;
    && |tmpl| >= 3 && |out| == |pf|
    && var x, h := MissingFor(p, tmpl), HalfStep(tmpl[1], tmpl[2]);
       && (Faithful(pf, p, tmpl) ==> Restored(out, pf, x, h + Rounding(pf, p, tmpl)))
       && (Exact(pf, p, tmpl) ==> (Restored(out, pf, x, h) <==> Faithful(pf, p, tmpl)))
  }

  /** `simpack`, its template entries filled in. */
  method PackSimply(pf: seq<real>, idrs: int, e: int, d: int, cpack: array<byte>)
    returns (tmpl: seq<int>, octets: seq<byte>)
    requires pf != []
    requires var w := WidthFor(Lowest(pf), Highest(pf), Width(idrs), e, d);
      Lowest(pf) != Highest(pf) && w > 0 ==> |pf| * w + 7 <= 8 * cpack.Length
    modifies cpack
    ensures PackedAs(pf, Simply(Width(idrs), e, d), 0, tmpl, octets) && |octets| <= cpack.Length
  {
    hide Lowest, Highest, WidthFor, Bits, IsPattern, Chosen, EncAll, Code, Holds, Up8, Zeros;
    var t, lcpack, ieee;
    ghost var a := cpack[..];
    t, lcpack := Simpack(pf, idrs, e, d, cpack);
    ieee := MakeIeee(t.ref);
    if Lowest(pf) == Highest(pf) {
      octets := [];
      NoBits();
    } else {
      PackedFront(cpack, a, lcpack, Pad8(EncAll(SimplePacking.Codes(pf, t, d), t.nbits)));
      octets := cpack[..lcpack];
    }
    tmpl := [ieee, t.e, d, t.nbits, 0];
    assert SimplyWith(pf, Simply(Width(idrs), e, d), tmpl, octets, t);
  }

  /** `compack` or `misspack`, its template entries filled in; without missing points theirs are 0. */
  method PackComplexly(pf: seq<real>, e: int, d: int, order: nat, missopt: nat, miss1: word, miss2: word,
                       cpack: array<byte>)
    returns (tmpl: seq<int>, octets: seq<byte>)
    requires pf != [] && order <= 2 && missopt <= 2 && (missopt == 0 ==> miss1 == miss2 == 0)
    requires var x := Missing(missopt, Value(miss1), Value(miss2));
      !ConstantField(pf, x) ==> Packable(ScaledCells(pf, x, e, d), order, missopt)
    requires var x := Missing(missopt, Value(miss1), Value(miss2));
      !ConstantField(pf, x) ==> Room(ScaledCells(pf, x, e, d), order, missopt, cpack.Length)
    modifies cpack
    ensures PackedAs(pf, Complexly(e, d, order), NumberFor(Complexly(e, d, order)), tmpl, octets)
    ensures |octets| <= cpack.Length
  {
    hide Lowest, Highest, Bits, IsPattern, Packable, Room, ScaledCells, Value, PackedReals, Entries, Counts;
    var rp := ReadPattern(miss1);
    var rs := ReadPattern(miss2);
    var x := Missing(missopt, rp, rs);
    var t, drt, lcpack := PackReals(pf, x, e, d, order, cpack);
    octets := cpack[..lcpack];
    EntriesFit(pf, x, e, d, order, t, drt, Bits(octets));
    var ieee := MakeIeee(t.ref);
    var p := Complexly(e, d, order);
    tmpl := Entries(ieee, e, d, drt, miss1, miss2);
    PatternIsWord(t.ref, ieee);
    EntriesRead(ieee, e, d, drt, miss1, miss2);
    if !ConstantField(pf, x) { LongEnough(ScaledCells(pf, x, e, d), order, missopt); }
    assert ComplexlyWith(pf, p, tmpl, octets, t);
  }

  lemma {:induction false} LongEnough(cells: seq<Cells.Cell>, order: nat, missopt: nat)
    requires Packable(cells, order, missopt)
    ensures order < |cells|
  {
  }

  /** The entries from the fourth on. */
  function Counts(drt: Drt, miss1: word, miss2: word): (r: seq<nat>)
    ensures |r| == (if drt.order == 0 then 13 else 15)
    ensures r[0] == drt.nbitsgref && r[1] == 0 && r[3] == drt.missopt && r[4] == miss1 && r[5] == miss2
    ensures r[6] == drt.ngroups
    ensures r[7] == drt.ngwidthref && r[8] == drt.nbitsgwidth && r[9] == drt.nglenref && r[10] == drt.lenInc
    ensures r[11] == drt.nglenlast && r[12] == drt.nbitsglen
    ensures drt.order > 0 ==> r[13] == drt.order && r[14] == drt.nbitsd / 8
  {
    var a: seq<nat>, b: seq<nat> := [drt.nbitsgref, 0, 1, drt.missopt], [miss1, miss2, drt.ngroups];
    var c: seq<nat>, d: seq<nat> :=
      [drt.ngwidthref, drt.nbitsgwidth, drt.nglenref], [drt.lenInc, drt.nglenlast, drt.nbitsglen];
    a + b + c + d + if drt.order == 0 then [] else [drt.order, drt.nbitsd / 8]
  }

  function Entries(ieee: int, e: int, d: int, drt: Drt, miss1: word, miss2: word): (tmpl: seq<int>)
    ensures |tmpl| == (if drt.order == 0 then 16 else 18) && tmpl[0] == ieee && tmpl[1] == e && tmpl[2] == d
    ensures tmpl[3..] == Counts(drt, miss1, miss2)
    ensures forall i :: 3 <= i < |tmpl| ==> tmpl[i] == Counts(drt, miss1, miss2)[i - 3]
  {
    hide Counts;
    [ieee, e, d] + Counts(drt, miss1, miss2)
  }

  lemma {:induction false} EntriesRead(ieee: int, e: int, d: int, drt: Drt, miss1: word, miss2: word)
    requires IsWord(ieee) && drt.order <= 2 && drt.nbitsd % 8 == 0 && (drt.order == 0 ==> drt.nbitsd == 0)
    ensures var tmpl, dnum := Entries(ieee, e, d, drt, miss1, miss2), NumberFor(Complexly(e, d, drt.order));
      && ComplexEntries(dnum, tmpl) && DrtIn(dnum, tmpl) == drt
      && MissingIn(tmpl) == Missing(drt.missopt, Value(miss1), Value(miss2))
  {
    hide Value, Counts, Entries;
  }

  method ReadPattern(w: word) returns (v: real)
    ensures v == Value(w)
  {
    hide Value;
    var a := ReadAll([w]);
    v := a[0];
  }

  // ----- reading it back

  ghost function Seven(cpack: seq<byte>): (c: section)
    ensures c == Data(cpack)
  {
    Data(cpack)
  }

  ghost predicate Reads(repr: DataRecord, cpack: seq<byte>, out: seq<real>)
  {
    forall grid, rest :: Unpack7(grid, Some(repr), SectionBits(Seven(cpack)) + rest) == Some(out)
  }

  lemma {:induction false} SectionAt(cpack: seq<byte>, rest: seq<bit>)
    requires Octets(Seven(cpack)) < Pow2(32)
    ensures var s := SectionBits(Seven(cpack)) + rest;
      IsSection(s, 7) && |s| >= 40 && Length(s) == 5 + |cpack| && s[40..] == Bits(cpack) + rest
  {
    hide SectionBits, Bits, Pow2, Dec, IsSection;
    HeadRead(Seven(cpack), rest);
    HeadLong(SectionBits(Seven(cpack)) + rest);
  }

  lemma {:induction false} HeadLong(s: seq<bit>)
    requires IsSection(s, 7)
    ensures |s| >= 40
  {
    hide Dec;
  }

  lemma {:induction false} AllData(out: seq<real>, fld: seq<real>, h: real)
    ensures Restored(out, fld, Missing(0, 0.0, 0.0), h) <==> AllClose(out, fld, h)
    ensures h >= 0.0 ==> AllClose(fld, fld, h)
  {
    assert forall j :: 0 <= j < |fld| && |out| == |fld| ==>
      (PointBack(out[j], fld[j], Missing(0, 0.0, 0.0), h) <==> Close(out[j], fld[j], h));
  }

  lemma {:induction false} SimplyTakes(pf: seq<real>, p: Packer, tmpl: seq<int>, cpack: seq<byte>, t: Scaling)
    requires pf != [] && p.Simply? && SimplyWith(pf, p, tmpl, cpack, t)
    ensures t.ref == RefFor(pf, p, MissingFor(p, tmpl)) && (t.nbits == 0 <==> NoCodes(pf, p, MissingFor(p, tmpl)))
    ensures IsWord(tmpl[0]) && (IsFloat(t.ref) ==> Value(tmpl[0]) == t.ref)
  {
    hide Lowest, Highest, Tens, Rint, WidthFor, Bits, IsPattern, Value, IsFloat, EncAll, Code;
    PatternIsWord(t.ref, tmpl[0]);
    if IsFloat(t.ref) { PatternOfFloat(t.ref, tmpl[0]); }
  }

  /** Codes with some data always; the values are the same for the same reference. */
  lemma {:induction false} SimplyGained(exact: seq<real>, out: seq<real>, pf: seq<real>, p: Packer, tmpl: seq<int>)
    requires pf != [] && p.Simply? && |tmpl| == 5 && IsWord(tmpl[0]) && |out| == |pf|
    requires AllClose(out, exact, Rounding(pf, p, tmpl)) && (Exact(pf, p, tmpl) ==> out == exact)
    requires AllClose(exact, pf, HalfStep(tmpl[1], tmpl[2])) <==> Faithful(pf, p, tmpl)
    ensures Gained(out, pf, p, tmpl)
  {
    hide Rounding, Exact, Faithful, HalfStep, Restored, AllClose, Value;
    var h, k := HalfStep(tmpl[1], tmpl[2]), Rounding(pf, p, tmpl);
    AllData(out, pf, h);
    AllData(out, pf, h + k);
    if Faithful(pf, p, tmpl) { CloseTwice(out, exact, pf, h, k); }
  }

  lemma {:induction false} SimplyRead(pf: seq<real>, p: Packer, tmpl: seq<int>, cpack: seq<byte>)
    returns (out: seq<real>)
    requires pf != [] && p.Simply? && PackedAs(pf, p, NumberFor(p), tmpl, cpack) && Octets(Seven(cpack)) < Pow2(32)
    ensures Gained(out, pf, p, tmpl) && Reads(DataRecord(|pf|, NumberFor(p), tmpl), cpack, out)
  {
    hide Bits, SectionBits, IsSection, Octets, Pow2, SimpleReals, PackedSimply, IsFloat, IsPattern, Value, Lowest,
         Highest, Restorable, Restored, AllClose, HalfStep, Length, Formed, Gained, Exact, Drift, RefFor, NoCodes;
    var t :| SimplyWith(pf, p, tmpl, cpack, t);
    SimplyTakes(pf, p, tmpl, cpack, t);
    var t', u := ScalingIn(tmpl), Bits(cpack);
    SimpleRestored(pf, p.nbits, p.e, p.d, t, u, []);
    SimpleShifted(u, t, t', p.d, |pf|);
    out := SimpleReals(u, t', p.d, |pf|).value;
    forall grid, rest
      ensures Unpack7(grid, Some(DataRecord(|pf|, NumberFor(p), tmpl)), SectionBits(Seven(cpack)) + rest) == Some(out)
    {
      SectionAt(cpack, rest);
      SimpleRestored(pf, p.nbits, p.e, p.d, t, u, rest);
      SimplePrefix(u, rest, t, t', p.d, |pf|);
    }
    assert u + [] == u;
    var exact := SimpleReals(u, t, p.d, |pf|).value;
    AllData(pf, pf, HalfStep(t.e, p.d));
    SomeData(pf, p, tmpl);
    SimplyGained(exact, out, pf, p, tmpl);
  }

  lemma {:induction false} SomeData(pf: seq<real>, p: Packer, tmpl: seq<int>)
    requires pf != [] && p.Simply?
    ensures Exact(pf, p, tmpl) ==> IsFloat(RefFor(pf, p, MissingFor(p, tmpl)))
  {
    hide RefFor, IsFloat;
    assert IsData(pf[0], MissingFor(p, tmpl));
  }

  /** What follows does not matter for another reference either. */
  lemma {:induction false} SimplePrefix(u: seq<bit>, rest: seq<bit>, t: Scaling, t': Scaling, d: int, n: nat)
    requires t.e == t'.e && t.nbits == t'.nbits && SimpleReals(u, t, d, n).Some?
    ensures SimpleReals(u + rest, t', d, n) == SimpleReals(u, t', d, n)
  {
    hide RealOf, DecAll;
    if t.nbits != 0 { DecAllPrefix(u, rest, t.nbits, n); }
  }

  lemma {:induction false} ComplexlyTakes(pf: seq<real>, p: Packer, tmpl: seq<int>, cpack: seq<byte>, t: Scaling)
    requires pf != [] && p.Complexly? && ComplexlyWith(pf, p, tmpl, cpack, t)
    ensures MissingFor(p, tmpl) == MissingIn(tmpl)
    ensures t.ref == RefFor(pf, p, MissingIn(tmpl))
    ensures ConstantField(pf, MissingIn(tmpl)) <==> NoCodes(pf, p, MissingIn(tmpl))
    ensures IsFloat(t.ref) ==> Value(tmpl[0]) == t.ref
  {
    hide Lowest, Highest, ScaleOf, Bits, IsPattern, Value, IsFloat, PackedWith, ScaledCells, AllCounts;
    if IsFloat(t.ref) { PatternOfFloat(t.ref, tmpl[0]); }
  }

  lemma {:induction false} ComplexlyRead(pf: seq<real>, p: Packer, tmpl: seq<int>, cpack: seq<byte>)
    returns (out: seq<real>)
    requires pf != [] && p.Complexly? && PackedAs(pf, p, NumberFor(p), tmpl, cpack) && Octets(Seven(cpack)) < Pow2(32)
    ensures Gained(out, pf, p, tmpl) && Reads(DataRecord(|pf|, NumberFor(p), tmpl), cpack, out)
  {
    hide Bits, SectionBits, IsSection, Octets, Pow2, PackedReals, IsFloat, IsPattern, Value, Lowest, Highest,
         Restorable, Restored, HalfStep, Length, Formed, RealsOf, Decode, AllCounts, SecondaryOnly, Drift, RefFor,
         NoCodes, ConstantField, OnlyMissing;
    var t :| ComplexlyWith(pf, p, tmpl, cpack, t);
    ComplexlyTakes(pf, p, tmpl, cpack, t);
    var dnum := NumberFor(p);
    var x, drt, n := MissingIn(tmpl), DrtIn(dnum, tmpl), 5 + |cpack|;
    var t' := Scaling(Value(tmpl[0]), tmpl[1], 0, false);
    BitsLength(cpack);
    RealsRestoredWith(pf, x, p.e, p.d, p.order, t, drt, Bits(cpack), [], n, t');
    assert Bits(cpack) + [] == Bits(cpack);
    out := RealsOf(Decode(drt, Bits(cpack), n, |pf|), t', p.d, x, |pf|).value;
    forall grid, rest
      ensures Unpack7(grid, Some(DataRecord(|pf|, NumberFor(p), tmpl)), SectionBits(Seven(cpack)) + rest) == Some(out)
    {
      SectionAt(cpack, rest);
      ExtraIgnored(pf, x, p.e, p.d, p.order, t, drt, Bits(cpack), rest, n);
    }
    var h := HalfStep(p.e, p.d);
    if OnlyMissing(pf, x) { MissingRestored(out, pf, x, h + Rounding(pf, p, tmpl), h); }
  }

  /** In the normal range of 32-bit floats that is half a unit of the reference's last place. */
  lemma {:induction false} RoundingBound(pf: seq<real>, p: Packer, tmpl: seq<int>, ref: real, n: int)
    requires pf != [] && |tmpl| >= 3 && ref == RefFor(pf, p, MissingFor(p, tmpl)) && IsPattern(ref, tmpl[0])
    requires ref != 0.0 && -126 <= n <= 127 && P2(n) <= Ieee.Abs(ref) < P2(n + 1) && !CarryLost(Ieee.Abs(ref), n)
    ensures Rounding(pf, p, tmpl)
         <= if NoCodes(pf, p, MissingFor(p, tmpl)) then P2(n - 24) else P2(n - 24) * P10(-p.d)
  {
    hide P2, P10, Value, RefFor, NoCodes, MissingFor, CarryLost, Fields, Joined, Drift;
    var m :| P2(m) <= Ieee.Abs(ref) < P2(m + 1) && tmpl[0] == Joined(ref < 0.0, Fields(Ieee.Abs(ref), m));
    P2Bracket(Ieee.Abs(ref), m, n);
    PatternNear(ref, n, tmpl[0]);
    DriftBound(ref, Value(tmpl[0]), NoCodes(pf, p, MissingFor(p, tmpl)), p.d, P2(n - 24));
  }

  lemma {:induction false} DriftBound(ref: real, ref': real, flat: bool, d: int, h: real)
    requires -h <= ref' - ref <= h
    ensures Drift(ref, ref', flat, d) <= if flat then h else h * P10(-d)
  {
    hide P10;
    Scale(Ieee.Abs(ref' - ref), h, P10(-d));
  }

  lemma {:induction false} BitsLength(a: seq<byte>)
    ensures |Bits(a)| == 8 * |a|
  {
    hide Bits;
  }
}
