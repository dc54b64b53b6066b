/** Complex packing loses nothing: the decoder applied to the encoder's bits and template. */
module ComplexRoundTrip {
  import opened Options
  import opened Shifts
  import opened BitString
  import opened SignMagnitude
  import opened Extremes
  import opened Cells
  import opened Differencing
  import opened ComplexFormat

  /** A field the encoder is given: nonnegative data, and only the kinds of missing points declared. */
  ghost predicate Encodable(cells: seq<Cell>, order: nat, missopt: nat)
  {
    && order <= 2 && missopt <= 2 && Allowed(cells, missopt)
    && forall v :: v in DataOf(cells) ==> v >= 0
  }

  /** Consecutive nonempty groups that cover n points. */
  ghost predicate Partition(lens: seq<nat>, n: nat)
  {
    && lens != [] && Sum(lens) == n
    && forall i :: 0 <= i < |lens| ==> lens[i] > 0
  }

  /** The field with its data replaced by what differencing leaves to pack. */
  ghost function ResidualCells(cells: seq<Cell>, order: nat): (r: seq<Cell>)
    requires order <= 2
    ensures |r| == |cells|
  {
    Refill(cells, Residual(DataOf(cells), order))
  }

  ghost function Groups(cells: seq<Cell>, lens: seq<nat>, order: nat): (gs: seq<seq<Cell>>)
    requires order <= 2 && Sum(lens) == |cells|
    ensures |gs| == |lens|
  {
    Split(ResidualCells(cells, order), lens)
  }

  ghost function Template(cells: seq<Cell>, lens: seq<nat>, order: nat, missopt: nat): (t: Drt)
    requires order <= 2 && Sum(lens) == |cells| && lens != []
    ensures t.order == order && t.missopt == missopt && t.ngroups == |lens|
    ensures order == 0 || t.nbitsd >= 1
  {
    TemplateOf(Groups(cells, lens, order), lens, order, missopt, HeaderOf(DataOf(cells), order))
  }

  ghost function Packed(cells: seq<Cell>, lens: seq<nat>, order: nat, missopt: nat): (s: seq<bit>)
    requires order <= 2 && Sum(lens) == |cells| && lens != []
  {
    FieldBits(Groups(cells, lens, order), lens, Template(cells, lens, order, missopt), HeaderOf(DataOf(cells), order))
  }

  // ----- what the groups inherit from the field

  lemma {:induction false} GroupsInherit(cells: seq<Cell>, lens: seq<nat>, order: nat, missopt: nat)
    requires Encodable(cells, order, missopt) && Partition(lens, |cells|)
    ensures var gs := Groups(cells, lens, order);
      && (forall i :: 0 <= i < |gs| ==> |gs[i]| == lens[i] && gs[i] != [] && Allowed(gs[i], missopt))
      && (forall i, v :: 0 <= i < |gs| && v in DataOf(gs[i]) ==> v >= 0)
  {
    var ds := DataOf(cells);
    var r := Residual(ds, order);
    var rc := ResidualCells(cells, order);
    var gs := Groups(cells, lens, order);
    assert forall i :: 0 <= i < |ds| ==> ds[i] in ds;
    ResidualNonnegative(ds, order);
    RefillAllowed(cells, r, missopt);
    DataOfRefill(cells, r);
    hide *;
    forall i | 0 <= i < |gs| ensures Allowed(gs[i], missopt) && forall v :: v in DataOf(gs[i]) ==> v >= 0 {
      GroupInherits(rc, lens, i, missopt);
    }
  }

  lemma {:induction false} GroupInherits(rc: seq<Cell>, lens: seq<nat>, i: nat, missopt: nat)
    requires Sum(lens) == |rc| && i < |lens| && Allowed(rc, missopt)
    requires forall v :: v in DataOf(rc) ==> v >= 0
    ensures var g := Split(rc, lens)[i]; Allowed(g, missopt) && forall v :: v in DataOf(g) ==> v >= 0
  {
    var g := Split(rc, lens)[i];
    forall c | c in g ensures c in rc { SplitMembers(rc, lens, i, c); }
    assert forall k :: 0 <= k < |g| ==> g[k] in g;
    forall v | v in DataOf(g) ensures v >= 0 {
      DataOfSource(g, v);
      var k :| 0 <= k < |rc| && rc[k] == Data(v);
      DataOfMember(rc, k);
    }
  }

  /** Some point that is not secondary-missing leaves room for the secondary marker. */
  lemma {:induction false} TopRef(cells: seq<Cell>, lens: seq<nat>, order: nat, k: nat)
    requires order <= 2 && Partition(lens, |cells|) && k < |cells| && cells[k] != Secondary
    requires forall v :: v in DataOf(ResidualCells(cells, order)) ==> v >= 0
    ensures MaxOf(Refs(Groups(cells, lens, order))) >= -1
  {
    var rc, gs := ResidualCells(cells, order), Groups(cells, lens, order);
    RefillClass(cells, Residual(DataOf(cells), order), k);
    hide Residual;
    var i := SplitCovers(rc, lens, k);
    var j :| 0 <= j < |gs[i]| && gs[i][j] == rc[k];
    if DataOf(gs[i]) != [] {
      var v := MinOf(DataOf(gs[i]));
      SplitMembers(rc, lens, i, rc[k]);
      DataOfSource(gs[i], v);
      SplitMembers(rc, lens, i, Data(v));
      var m :| 0 <= m < |rc| && rc[m] == Data(v);
      DataOfMember(rc, m);
    } else {
      if rc[k].Data? { DataOfMember(gs[i], j); }
    }
    assert Refs(gs)[i] >= -1;
  }

  /** Every reference fits its width and tells all-missing groups apart. */
  lemma {:induction false} RefsRoundTrip(gs: seq<seq<Cell>>, missopt: nat, nb: nat)
    requires missopt <= 2 && gs != [] && nb == CeilLog2(MaxOf(Refs(gs)) + missopt + 1)
    requires forall i :: 0 <= i < |gs| ==> gs[i] != [] && Allowed(gs[i], missopt)
    requires forall i, v :: 0 <= i < |gs| && v in DataOf(gs[i]) ==> v >= 0
    requires missopt == 2 ==> MaxOf(Refs(gs)) >= -1
    ensures forall i :: 0 <= i < |gs| ==> 0 <= StoredRefs(gs, nb)[i] < Pow2(nb) && RefsTell(gs[i], missopt, nb)
  {
    hide GroupRef, StoredRef, RefsTell, Allowed, MaxOf, CeilLog2, DataOf, Pow2;
    forall i | 0 <= i < |gs| ensures 0 <= StoredRefs(gs, nb)[i] < Pow2(nb) && RefsTell(gs[i], missopt, nb) {
      assert Refs(gs)[i] == GroupRef(gs[i]);
      RefInRange(gs[i], missopt, MaxOf(Refs(gs)));
    }
  }

  lemma {:induction false} Layout(h: seq<bit>, r: seq<bit>, w: seq<bit>, l: seq<bit>, d: seq<bit>, extra: seq<bit>)
    ensures var tail := Zeros(Up8(|h + (r + w + l + d)|) - |h + (r + w + l + d)|) + extra;
            Pad8(h + (r + w + l + d)) + extra == h + (r + (w + (l + (d + tail))))
  {
    hide Zeros, Up8;
    var z := Zeros(Up8(|h + (r + w + l + d)|) - |h + (r + w + l + d)|);
    assert Pad8(h + (r + w + l + d)) == h + (r + w + l + d) + z;
    assert r + w + l + d == r + (w + (l + d));
    assert h + (r + (w + (l + d))) + z + extra == h + (r + (w + (l + (d + (z + extra)))));
  }

  /** The decoder's first half recovers the header and the three descriptor runs. */
  lemma {:induction false} DescriptorsRoundTrip(gs: seq<seq<Cell>>, lens: seq<nat>, order: nat, missopt: nat,
                                                h: Header, t: Drt, refs: seq<nat>, tail: seq<bit>, s: seq<bit>,
                                                lensec: nat, ndpts: nat)
    requires order <= 2 && missopt <= 2 && |gs| == |lens| > 0
    requires t == TemplateOf(gs, lens, order, missopt, h)
    requires h.ival1 >= 0 && h.ival2 >= 0 && (order < 2 ==> h.ival2 == 0) && (order == 0 ==> h == Header(0, 0, 0))
    requires forall rest :: FetchRun(RunBits(StoredRefs(gs, t.nbitsgref), t.nbitsgref) + rest, t.nbitsgref, |gs|)
                         == Some((refs, rest))
    requires s == (if order == 0 then [] else HeaderBits(order, h.ival1, h.ival2, h.minsd, t.nbitsd))
                  + (RunBits(StoredRefs(gs, t.nbitsgref), t.nbitsgref)
                  + (RunBits(Minus(Widths(gs, missopt), t.ngwidthref), t.nbitsgwidth)
                  + (RunBits(StoredLens(lens, t.nglenref), t.nbitsglen) + tail)))
    ensures Decode(t, s, lensec, ndpts)
         == DecodeGroups(t, tail, h, refs, Widths(gs, missopt), lens, lensec, ndpts)
  {
    hide StoredRefs, Widths, Minus, RunBits, StoredLens, FetchRun, FetchHeader, HeaderBits, DecodeGroups,
         MinOf, MaxOf, CeilLog2, Pow2, PlusAll, RestoredLens, Refs, Inner, HeaderWidth;
    var l := RunBits(StoredLens(lens, t.nglenref), t.nbitsglen) + tail;
    var w := RunBits(Minus(Widths(gs, missopt), t.ngwidthref), t.nbitsgwidth) + l;
    var r := RunBits(StoredRefs(gs, t.nbitsgref), t.nbitsgref) + w;
    HeaderRoundTrip(order, h, t.nbitsd, r, s);
    WidthsRoundTrip(Widths(gs, missopt), t.ngwidthref, t.nbitsgwidth, l);
    LensRoundTrip(lens, t, tail);
  }

  lemma {:induction false} HeaderRoundTrip(order: nat, h: Header, n: nat, rest: seq<bit>, s: seq<bit>)
    requires order <= 2
    requires h.ival1 >= 0 && h.ival2 >= 0 && (order < 2 ==> h.ival2 == 0) && (order == 0 ==> h == Header(0, 0, 0))
    requires n == if order == 0 then 0 else HeaderWidth(h.ival1, h.ival2, h.minsd)
    requires s == (if order == 0 then [] else HeaderBits(order, h.ival1, h.ival2, h.minsd, n)) + rest
    ensures FetchHeader(s, order, n) == Some((h, rest))
  {
    if order == 0 {
      assert s == rest;
    } else {
      FetchHeaderBits(order, h, n, rest);
    }
  }

  /** The bits, regrouped the way the decoder consumes them. */
  lemma {:induction false} PackedLayout(gs: seq<seq<Cell>>, lens: seq<nat>, t: Drt, h: Header, extra: seq<bit>)
    returns (tail: seq<bit>)
    requires |gs| == |lens| > 0 && (t.order == 0 || t.nbitsd >= 1)
    ensures FieldBits(gs, lens, t, h) + extra
         == (if t.order == 0 then [] else HeaderBits(t.order, h.ival1, h.ival2, h.minsd, t.nbitsd))
            + (RunBits(StoredRefs(gs, t.nbitsgref), t.nbitsgref)
            + (RunBits(Minus(Widths(gs, t.missopt), t.ngwidthref), t.nbitsgwidth)
            + (RunBits(StoredLens(lens, t.nglenref), t.nbitsglen) + (DataBits(gs, t.missopt) + tail))))
    ensures |DataBits(gs, t.missopt)| <= |FieldBits(gs, lens, t, h)|
  {
    hide RunBits, StoredRefs, Minus, Widths, StoredLens, DataBits, HeaderBits, Pad8;
    var hb := if t.order == 0 then [] else HeaderBits(t.order, h.ival1, h.ival2, h.minsd, t.nbitsd);
    var rb, wb := RunBits(StoredRefs(gs, t.nbitsgref), t.nbitsgref),
                  RunBits(Minus(Widths(gs, t.missopt), t.ngwidthref), t.nbitsgwidth);
    var lb, db := RunBits(StoredLens(lens, t.nglenref), t.nbitsglen), DataBits(gs, t.missopt);
    tail := Zeros(Up8(|hb + (rb + wb + lb + db)|) - |hb + (rb + wb + lb + db)|) + extra;
    Layout(hb, rb, wb, lb, db, extra);
  }

  lemma {:induction false} HeaderSigns(cells: seq<Cell>, order: nat, missopt: nat)
    requires Encodable(cells, order, missopt)
    ensures var h := HeaderOf(DataOf(cells), order);
      h.ival1 >= 0 && h.ival2 >= 0 && (order < 2 ==> h.ival2 == 0) && (order == 0 ==> h == Header(0, 0, 0))
  {
    hide MinDiff;
    var ds := DataOf(cells);
    assert forall i :: 0 <= i < |ds| ==> ds[i] in ds;
  }

  /** Undoing the differencing of the decoded groups gives the field. */
  lemma {:induction false} FieldRestored(cells: seq<Cell>, lens: seq<nat>, order: nat, missopt: nat)
    requires Encodable(cells, order, missopt) && Partition(lens, |cells|)
    ensures var h := HeaderOf(DataOf(cells), order);
            var rc := Flatten(Groups(cells, lens, order));
            Refill(rc, Summed(DataOf(rc), order, h.ival1, h.ival2, h.minsd)) == cells
  {
    var ds := DataOf(cells);
    var h := HeaderOf(ds, order);
    FlattenSplit(ResidualCells(cells, order), lens);
    DataOfRefill(cells, Residual(ds, order));
    SummedResidual(ds, order);
    assert Summed(Residual(ds, order), order, h.ival1, h.ival2, h.minsd) == ds by {
      if order == 1 { SummedIgnoresSecond(Residual(ds, 1), h.ival1, h.ival2, At(ds, 1), h.minsd); }
    }
    RefillBack(cells, Residual(ds, order));
  }

  lemma {:induction false} SummedIgnoresSecond(r: seq<int>, ival1: int, ival2: int, other: int, minsd: int)
    ensures Summed(r, 1, ival1, ival2, minsd) == Summed(r, 1, ival1, other, minsd)
  {
    if r != [] { SummedIgnoresSecond(r[..|r| - 1], ival1, ival2, other, minsd); }
  }

  /**
   * Every field is decoded exactly, for every differencing order, missing-value option and
   * partition into groups, unless secondary missing points are declared and nothing else occurs.
   * Octets after the packed ones do not matter, and no length check trips.
   */
  lemma {:induction false} DecodePacked(cells: seq<Cell>, lens: seq<nat>, order: nat, missopt: nat,
                                        extra: seq<bit>, lensec: nat)
    requires Encodable(cells, order, missopt) && Partition(lens, |cells|)
    requires |Packed(cells, lens, order, missopt)| <= 8 * lensec
    requires missopt == 2 ==> exists k :: 0 <= k < |cells| && cells[k] != Secondary
    ensures Decode(Template(cells, lens, order, missopt), Packed(cells, lens, order, missopt) + extra, lensec, |cells|)
         == Field(cells)
  {
    var gs, t, h := Groups(cells, lens, order), Template(cells, lens, order, missopt), HeaderOf(DataOf(cells), order);
    GroupsInherit(cells, lens, order, missopt);
    HeaderSigns(cells, order, missopt);
    if missopt == 2 {
      var k :| 0 <= k < |cells| && cells[k] != Secondary;
      ResidualDataNonnegative(cells, order, missopt);
      TopRef(cells, lens, order, k);
    }
    FieldRestored(cells, lens, order, missopt);
    DecodeFieldBits(gs, lens, order, missopt, h, t, extra, lensec, |cells|);
  }

  lemma {:induction false} ResidualDataNonnegative(cells: seq<Cell>, order: nat, missopt: nat)
    requires Encodable(cells, order, missopt)
    ensures forall v :: v in DataOf(ResidualCells(cells, order)) ==> v >= 0
  {
    var ds := DataOf(cells);
    assert forall i :: 0 <= i < |ds| ==> ds[i] in ds;
    ResidualNonnegative(ds, order);
    DataOfRefill(cells, Residual(ds, order));
  }

  lemma {:induction false} DecodeFieldBits(gs: seq<seq<Cell>>, lens: seq<nat>, order: nat, missopt: nat, h: Header,
                                           t: Drt, extra: seq<bit>, lensec: nat, ndpts: nat)
    requires order <= 2 && missopt <= 2 && |gs| == |lens| > 0 && Sum(lens) == ndpts
    requires t == TemplateOf(gs, lens, order, missopt, h)
    requires forall i :: 0 <= i < |gs| ==> |gs[i]| == lens[i] && gs[i] != [] && Allowed(gs[i], missopt)
    requires forall i, v :: 0 <= i < |gs| && v in DataOf(gs[i]) ==> v >= 0
    requires missopt == 2 ==> MaxOf(Refs(gs)) >= -1
    requires h.ival1 >= 0 && h.ival2 >= 0 && (order < 2 ==> h.ival2 == 0) && (order == 0 ==> h == Header(0, 0, 0))
    requires |FieldBits(gs, lens, t, h)| <= 8 * lensec
    ensures Decode(t, FieldBits(gs, lens, t, h) + extra, lensec, ndpts)
         == (var rc := Flatten(gs); Field(Refill(rc, Summed(DataOf(rc), order, h.ival1, h.ival2, h.minsd))))
  {
    hide FieldBits, Decode, StoredRefs, Widths, DataBits, FetchGroups, FetchRun, RunBits, HeaderBits, StoredLens, Minus,
         MinOf, MaxOf, CeilLog2, Pow2, Refs, Inner, HeaderWidth, RefsTell, Allowed, Summed, Refill, TotalBits, Flatten;
    RefsRoundTrip(gs, missopt, t.nbitsgref);
    var tail := PackedLayout(gs, lens, t, h, extra);
    var refs := StoredRefs(gs, t.nbitsgref);
    forall rest ensures FetchRun(RunBits(refs, t.nbitsgref) + rest, t.nbitsgref, |gs|) == Some((refs, rest)) {
      FetchRunExact(refs, t.nbitsgref, rest);
    }
    DescriptorsRoundTrip(gs, lens, order, missopt, h, t, refs, DataBits(gs, missopt) + tail,
                         FieldBits(gs, lens, t, h) + extra, lensec, ndpts);
    GroupsRoundTrip(gs, lens, missopt, t.nbitsgref, tail);
  }

  // ----- the field that is not decoded

  ghost predicate AllSecondary(cells: seq<Cell>)
  {
    forall k :: 0 <= k < |cells| ==> cells[k] == Secondary
  }

  lemma {:induction false} NoData(cells: seq<Cell>)
    requires forall k :: 0 <= k < |cells| ==> !cells[k].Data?
    ensures DataOf(cells) == [] && Refill(cells, []) == cells
  {
    if cells != [] { NoData(cells[1..]); }
  }

  lemma {:induction false} SecondaryGroups(cells: seq<Cell>, lens: seq<nat>, order: nat)
    requires order <= 2 && Partition(lens, |cells|) && AllSecondary(cells)
    ensures var gs := Groups(cells, lens, order);
      && (forall i :: 0 <= i < |gs| ==> |gs[i]| == lens[i] && GroupRef(gs[i]) == -2 && GroupWidth(gs[i], 2) == 0)
  {
    NoData(cells);
    assert Residual([], order) == [];
    assert ResidualCells(cells, order) == cells;
    var gs := Groups(cells, lens, order);
    forall i | 0 <= i < |gs| ensures GroupRef(gs[i]) == -2 && GroupWidth(gs[i], 2) == 0 {
      forall c | c in gs[i] ensures c == Secondary { SplitMembers(cells, lens, i, c); }
      assert forall k :: 0 <= k < |gs[i]| ==> gs[i][k] in gs[i];
      NoData(gs[i]);
    }
  }

  /** With no width for the references, reference 0 is the primary marker. */
  lemma {:induction false} FetchedAsPrimary(s: seq<bit>, refs: seq<int>, widths: seq<nat>, lens: seq<nat>)
    requires |refs| == |widths| == |lens|
    requires forall i :: 0 <= i < |refs| ==> refs[i] == 0 && widths[i] == 0
    ensures FetchGroups(s, refs, widths, lens, 2, 0) == Some(seq(Sum(lens), _ => Primary))
    ensures TotalBits(widths, lens) == 0
    decreases |lens|
  {
    if lens != [] {
      FetchedAsPrimary(s, refs[1..], widths[1..], lens[1..]);
      assert lens[0] * widths[0] == 0 && s[0..] == s;
      assert FlatCell(0, 0, 2) == Primary;
      assert GroupCells(s, 0, 0, lens[0], 2, 0) == seq(lens[0], _ => Primary);
      assert seq(lens[0], _ => Primary) + seq(Sum(lens[1..]), _ => Primary) == seq(Sum(lens), _ => Primary);
    } else {
      assert seq(0, _ => Primary) == [];
    }
  }

  lemma {:induction false} SecondaryTemplate(cells: seq<Cell>, lens: seq<nat>, order: nat)
    requires order <= 2 && Partition(lens, |cells|) && AllSecondary(cells)
    ensures var gs, t, h := Groups(cells, lens, order), Template(cells, lens, order, 2), HeaderOf(DataOf(cells), order);
      && t.nbitsgref == 0 && (forall i :: 0 <= i < |gs| ==> Widths(gs, 2)[i] == 0)
      && h.ival1 >= 0 && h.ival2 >= 0 && (order < 2 ==> h.ival2 == 0) && (order == 0 ==> h == Header(0, 0, 0))
  {
    var gs := Groups(cells, lens, order);
    SecondaryGroups(cells, lens, order);
    NoData(cells);
    hide Groups, Sum, DataOf, MinDiff, HeaderWidth, CeilLog2, Inner, AllSecondary, Pow2;
    assert Refs(gs)[0] == -2;
    MaxIs(Refs(gs), -2);
    CeilLog2Zero(1);
  }

  /** A field of secondary missing points only comes back as primary missing points. */
  lemma {:induction false} AllSecondaryDecoded(cells: seq<Cell>, lens: seq<nat>, order: nat, extra: seq<bit>,
                                               lensec: nat)
    requires order <= 2 && Partition(lens, |cells|) && AllSecondary(cells)
    ensures Decode(Template(cells, lens, order, 2), Packed(cells, lens, order, 2) + extra, lensec, |cells|)
         == Field(seq(|cells|, _ => Primary))
  {
    hide Widths, Groups, HeaderOf, FieldBits, Decode, StoredRefs, DataBits, FetchGroups, FetchRun, RunBits, HeaderBits,
         StoredLens, Minus, MinOf, MaxOf, CeilLog2, Pow2, Refs, Inner, HeaderWidth, Summed, Refill, TotalBits, MinDiff,
         DataOf, AllSecondary, Sum, TemplateOf;
    var gs, t, h := Groups(cells, lens, order), Template(cells, lens, order, 2), HeaderOf(DataOf(cells), order);
    SecondaryTemplate(cells, lens, order);
    var refs: seq<nat> := seq(|gs|, _ => 0);
    forall rest ensures FetchRun(RunBits(StoredRefs(gs, 0), 0) + rest, 0, |gs|) == Some((refs, rest)) {
      NoneFetched(StoredRefs(gs, 0), rest);
    }
    var primary := seq(|cells|, _ => Primary);
    NoData(primary);
    NothingSummed(order, h);
    var tail := PackedLayout(gs, lens, t, h, extra);
    DescriptorsRoundTrip(gs, lens, order, 2, h, t, refs, DataBits(gs, 2) + tail,
                         FieldBits(gs, lens, t, h) + extra, lensec, |cells|);
    FetchedAsPrimary(DataBits(gs, 2) + tail, refs, Widths(gs, 2), lens);
  }

  /** A run of width 0 takes no bits and reads as zeros. */
  lemma {:induction false} NoneFetched(vs: seq<int>, rest: seq<bit>)
    ensures FetchRun(RunBits(vs, 0) + rest, 0, |vs|) == Some((seq(|vs|, _ => 0), rest))
  {
    assert [] + rest == rest;
  }

  lemma {:induction false} NothingSummed(order: nat, h: Header)
    requires order <= 2
    ensures Summed([], order, h.ival1, h.ival2, h.minsd) == []
  {
  }

  /** Exactly when complex packing is lossless. */
  lemma {:induction false} RoundTripExactly(cells: seq<Cell>, lens: seq<nat>, order: nat, missopt: nat,
                                            extra: seq<bit>, lensec: nat)
    requires Encodable(cells, order, missopt) && Partition(lens, |cells|)
    requires |Packed(cells, lens, order, missopt)| <= 8 * lensec
    ensures Decode(Template(cells, lens, order, missopt), Packed(cells, lens, order, missopt) + extra, lensec, |cells|)
            == Field(cells)
            <==> !(missopt == 2 && AllSecondary(cells))
  {
    if missopt == 2 && AllSecondary(cells) {
      AllSecondaryDecoded(cells, lens, order, extra, lensec);
      assert cells != [] by { assert lens[0] > 0; }
      assert cells[0] != seq(|cells|, _ => Primary)[0];
    } else {
      DecodePacked(cells, lens, order, missopt, extra, lensec);
    }
  }
}
