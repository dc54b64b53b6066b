/**
 * The bit layout of complex packing (Data Representation Templates 5.2 and 5.3, Data Templates 7.2
 * and 7.3), as functions: what the encoder lays down and what the decoder makes of it.
 */
module ComplexFormat {
  import opened Options
  import opened Shifts
  import opened BitString
  import opened SignMagnitude
  import opened Extremes
  import opened Cells
  import opened Differencing

  /** The entries of the template that steer the decoder; order is 0 under Template 5.2. */
  datatype Drt = Drt(order: nat, missopt: nat, nbitsgref: nat, ngroups: nat,
                     ngwidthref: nat, nbitsgwidth: nat,
                     nglenref: nat, lenInc: nat, nglenlast: nat, nbitsglen: nat, nbitsd: nat)

  datatype Decoded = Constant | Field(cells: seq<Cell>) | Invalid

  // ----- one group

  function GroupRef(g: seq<Cell>): (r: int)
  {
    var ds := DataOf(g);
    if ds != [] then MinOf(ds)
    else if Primary !in g then -2
    else if Secondary !in g then -1
    else 0
  }

  function GroupWidth(g: seq<Cell>, missopt: nat): (w: nat)
  {
    var ds := DataOf(g);
    if ds != [] then CeilLog2(MaxOf(ds) - MinOf(ds) + missopt + 1)
    else if Primary in g && Secondary in g then 1
    else 0
  }

  /** Missing points take the two top codes of the width. */
  function CellCode(c: Cell, ref: int, w: nat): (x: int)
  {
    match c
    case Data(v) => v - ref
    case Primary => Pow2(w) - 1
    case Secondary => Pow2(w) - 2
  }

  function Codes(g: seq<Cell>, ref: int, w: nat): (xs: seq<int>)
    ensures |xs| == |g|
  {
    seq(|g|, i requires 0 <= i < |g| => CellCode(g[i], ref, w))
  }

  function CodeCell(x: int, ref: int, w: nat, missopt: nat): (c: Cell)
  {
    if missopt >= 1 && x == Pow2(w) - 1 then Primary
    else if missopt == 2 && x == Pow2(w) - 2 then Secondary
    else Data(x + ref)
  }

  /** The cell that a group of width 0 repeats: its reference, unless that is a missing marker. */
  function FlatCell(ref: int, nbitsgref: nat, missopt: nat): (c: Cell)
  {
    if missopt >= 1 && ref == Pow2(nbitsgref) - 1 then Primary
    else if missopt == 2 && ref == Pow2(nbitsgref) - 2 then Secondary
    else Data(ref)
  }

  /** Every code fits the width, and stands for its own cell only. */
  lemma {:induction false} CodeRoundTrip(g: seq<Cell>, missopt: nat, i: nat)
    requires missopt <= 2 && Allowed(g, missopt) && i < |g|
    requires GroupWidth(g, missopt) > 0
    ensures var ref, w := GroupRef(g), GroupWidth(g, missopt);
            var x := CellCode(g[i], ref, w);
            0 <= x < Pow2(w) && CodeCell(x, ref, w, missopt) == g[i]
  {
    var ds, w := DataOf(g), GroupWidth(g, missopt);
    assert Pow2(w) == 2 * Pow2(w - 1);
    if g[i].Data? { DataOfMember(g, i); }
  }

  // ----- runs of descriptors, padded to an octet

  function RunBits(vs: seq<int>, w: nat): (s: seq<bit>)
  {
    if w == 0 then [] else Pad8(EncAll(vs, w))
  }

  function Drop(s: seq<bit>, k: nat): (r: seq<bit>)
  {
    if k <= |s| then s[k..] else []
  }

  /** n values of width w from the front of s, and what follows their padding. */
  function FetchRun(s: seq<bit>, w: nat, n: nat): (r: Option<(seq<nat>, seq<bit>)>)
    ensures r.Some? ==> |r.value.0| == n
  {
    if w == 0 then Some((seq(n, _ => 0), s))
    else if n * w > |s| then None
    else Some((DecAll(s, w, n), Drop(s, Up8(n * w))))
  }

  lemma {:induction false} FetchRunBits(vs: seq<int>, w: nat, rest: seq<bit>)
    ensures w > 0 ==> FetchRun(RunBits(vs, w) + rest, w, |vs|) == Some((LowAll(vs, w), rest))
    ensures w == 0 ==> RunBits(vs, w) + rest == rest
  {
    if w > 0 {
      hide EncAll, DecAll, LowAll, Zeros;
      var e := EncAll(vs, w);
      EncAllLength(vs, w);
      var z := Zeros(Up8(|e|) - |e|);
      Assoc(e, z, rest);
      DecEncAll(vs, w, z + rest);
      assert (Pad8(e) + rest)[|Pad8(e)|..] == rest;
    }
  }

  /** A run whose values fit its width is read back exactly. */
  lemma {:induction false} FetchRunExact(vs: seq<int>, w: nat, rest: seq<bit>)
    requires forall i :: 0 <= i < |vs| ==> 0 <= vs[i] < Pow2(w)
    ensures FetchRun(RunBits(vs, w) + rest, w, |vs|) == Some((vs, rest))
  {
    hide RunBits, LowAll;
    FetchRunBits(vs, w, rest);
    if w > 0 {
      hide FetchRun;
      LowAllIdentity(vs, w);
    } else {
      assert vs == seq(|vs|, _ => 0);
    }
  }

  // ----- signed values of the spatial differencing header

  /** Width of the header values: sign bit, magnitude, rounded up to whole octets. */
  function HeaderWidth(ival1: int, ival2: int, minsd: int): (n: nat)
    ensures n % 8 == 0 && n >= 1
    ensures Abs(minsd) < Pow2(n - 1) && ival1 < Pow2(n - 1) && ival2 < Pow2(n - 1)
  {
    hide Pow2, CeilLog2, Up8;
    var a := CeilLog2(Abs(minsd) + 1);
    var maxorig := if ival2 > ival1 then ival2 else ival1;
    var b := CeilLog2(maxorig + 1);
    var n := Up8(if b > a then b + 1 else a + 1);
    Pow2Monotone(a, n - 1);
    Pow2Monotone(b, n - 1);
    n
  }

  function HeaderBits(order: nat, ival1: int, ival2: int, minsd: int, n: nat): (s: seq<bit>)
    requires n >= 1
  {
    if order == 0 then []
    else SignedBits(ival1, n) + (if order == 2 then SignedBits(ival2, n) else []) + SignedBits(minsd, n)
  }

  datatype Header = Header(ival1: int, ival2: int, minsd: int)

  function FetchSigned(s: seq<bit>, n: nat): (r: Option<(int, seq<bit>)>)
    requires n >= 1
  {
    if n > |s| then None else Some((SignedValue(s[..n]), s[n..]))
  }

  function FetchHeader(s: seq<bit>, order: nat, n: nat): (r: Option<(Header, seq<bit>)>)
  {
    if order == 0 || n == 0 then Some((Header(0, 0, 0), s))
    else
      var a := FetchSigned(s, n);
      if a.None? then None else
      var b := if order == 2 then FetchSigned(a.value.1, n) else Some((0, a.value.1));
      if b.None? then None else
      var c := FetchSigned(b.value.1, n);
      if c.None? then None else Some((Header(a.value.0, b.value.0, c.value.0), c.value.1))
  }

  lemma {:induction false} FetchSignedBits(v: int, n: nat, rest: seq<bit>)
    requires n >= 1 && Abs(v) < Pow2(n - 1)
    ensures FetchSigned(SignedBits(v, n) + rest, n) == Some((v, rest))
  {
    hide SignedBits, SignedValue, Pow2, Abs;
    SignedRoundTrip(v, n);
    var s := SignedBits(v, n) + rest;
    assert s[..n] == SignedBits(v, n) && s[n..] == rest;
  }

  lemma {:induction false} FetchHeaderBits(order: nat, h: Header, n: nat, rest: seq<bit>)
    requires order <= 2 && n >= 1
    requires 0 <= h.ival1 < Pow2(n - 1) && 0 <= h.ival2 < Pow2(n - 1) && Abs(h.minsd) < Pow2(n - 1)
    requires order < 2 ==> h.ival2 == 0
    requires order == 0 ==> h == Header(0, 0, 0)
    ensures FetchHeader(HeaderBits(order, h.ival1, h.ival2, h.minsd, n) + rest, order, n) == Some((h, rest))
  {
    hide SignedBits, SignedValue, FetchSigned;
    var x, y, z := SignedBits(h.ival1, n), SignedBits(h.ival2, n), SignedBits(h.minsd, n);
    var s := HeaderBits(order, h.ival1, h.ival2, h.minsd, n) + rest;
    FetchSignedBits(h.minsd, n, rest);
    if order == 2 {
      FetchSignedBits(h.ival2, n, z + rest);
      FetchSignedBits(h.ival1, n, y + (z + rest));
      assert s == x + (y + (z + rest));
    } else if order == 1 {
      FetchSignedBits(h.ival1, n, z + rest);
      assert s == x + (z + rest);
    } else {
      assert s == rest;
    }
  }

  // ----- the groups' values

  function GroupBits(g: seq<Cell>, missopt: nat): (s: seq<bit>)
  {
    var w := GroupWidth(g, missopt);
    if w == 0 then [] else EncAll(Codes(g, GroupRef(g), w), w)
  }

  function DataBits(gs: seq<seq<Cell>>, missopt: nat): (s: seq<bit>)
  {
    if gs == [] then [] else GroupBits(gs[0], missopt) + DataBits(gs[1..], missopt)
  }

  /** A reference as stored: the markers of all-missing groups are moved to the top of the width. */
  function StoredRef(r: int, nbitsgref: nat): (x: int)
  {
    if r == -1 then Pow2(nbitsgref) - 1
    else if r == -2 then Pow2(nbitsgref) - 2
    else r
  }

  function GroupCells(s: seq<bit>, ref: int, w: nat, n: nat, missopt: nat, nbitsgref: nat): (cs: seq<Cell>)
    requires n * w <= |s|
    ensures |cs| == n
  {
    if w == 0 then seq(n, _ => FlatCell(ref, nbitsgref, missopt))
    else
      var xs := DecAll(s, w, n);
      seq(n, i requires 0 <= i < n => CodeCell(xs[i], ref, w, missopt))
  }

  function FetchGroups(s: seq<bit>, refs: seq<int>, widths: seq<nat>, lens: seq<nat>,
                       missopt: nat, nbitsgref: nat): (r: Option<seq<Cell>>)
    requires |refs| == |widths| == |lens|
    ensures r.Some? ==> |r.value| == Sum(lens)
    decreases |lens|
  {
    if lens == [] then Some([])
    else if lens[0] * widths[0] > |s| then None
    else
      var cs := GroupCells(s, refs[0], widths[0], lens[0], missopt, nbitsgref);
      var r := FetchGroups(s[lens[0] * widths[0]..], refs[1..], widths[1..], lens[1..], missopt, nbitsgref);
      if r.None? then None else Some(cs + r.value)
  }

  /** The stored reference tells an all-missing group from every other flat group. */
  ghost predicate RefsTell(g: seq<Cell>, missopt: nat, nbitsgref: nat)
  {
    GroupWidth(g, missopt) == 0 ==>
      forall i :: 0 <= i < |g| ==> FlatCell(StoredRef(GroupRef(g), nbitsgref), nbitsgref, missopt) == g[i]
  }

  lemma {:induction false} GroupRoundTrip(g: seq<Cell>, missopt: nat, nbitsgref: nat, rest: seq<bit>)
    requires missopt <= 2 && Allowed(g, missopt) && RefsTell(g, missopt, nbitsgref)
    requires forall v :: v in DataOf(g) ==> v >= 0
    ensures var w := GroupWidth(g, missopt);
      && |GroupBits(g, missopt)| == |g| * w
      && GroupCells(GroupBits(g, missopt) + rest, StoredRef(GroupRef(g), nbitsgref), w, |g|, missopt, nbitsgref) == g
  {
    var w, ref := GroupWidth(g, missopt), GroupRef(g);
    if w > 0 {
      var xs := Codes(g, ref, w);
      forall i | 0 <= i < |g| ensures 0 <= xs[i] < Pow2(w) && CodeCell(xs[i], ref, w, missopt) == g[i] {
        CodeRoundTrip(g, missopt, i);
      }
      StoredRefOfWide(g, missopt, nbitsgref);
      hide *;
      GroupBitsWide(g, missopt);
      EncAllLength(xs, w);
      DecEncAll(xs, w, rest);
      LowAllIdentity(xs, w);
      GroupCellsWide(EncAll(xs, w) + rest, ref, w, |g|, missopt, nbitsgref, g);
    }
  }

  lemma {:induction false} StoredRefOfWide(g: seq<Cell>, missopt: nat, nbitsgref: nat)
    requires GroupWidth(g, missopt) > 0
    requires forall v :: v in DataOf(g) ==> v >= 0
    ensures StoredRef(GroupRef(g), nbitsgref) == GroupRef(g)
  {
  }

  lemma {:induction false} GroupBitsWide(g: seq<Cell>, missopt: nat)
    requires GroupWidth(g, missopt) > 0
    ensures GroupBits(g, missopt) == EncAll(Codes(g, GroupRef(g), GroupWidth(g, missopt)), GroupWidth(g, missopt))
  {
  }

  lemma {:induction false} GroupCellsWide(s: seq<bit>, ref: int, w: nat, n: nat, missopt: nat, nbitsgref: nat,
                                          g: seq<Cell>)
    requires w > 0 && n * w <= |s| && |g| == n
    requires forall i :: 0 <= i < n ==> CodeCell(DecAll(s, w, n)[i], ref, w, missopt) == g[i]
    ensures GroupCells(s, ref, w, n, missopt, nbitsgref) == g
  {
  }

  // ----- the whole field

  ghost function Refs(gs: seq<seq<Cell>>): (rs: seq<int>)
    ensures |rs| == |gs|
  {
    seq(|gs|, i requires 0 <= i < |gs| => GroupRef(gs[i]))
  }

  ghost function Widths(gs: seq<seq<Cell>>, missopt: nat): (ws: seq<int>)
    ensures |ws| == |gs|
  {
    seq(|gs|, i requires 0 <= i < |gs| => GroupWidth(gs[i], missopt))
  }

  function Minus(vs: seq<int>, d: int): (r: seq<int>)
    ensures |r| == |vs|
  {
    seq(|vs|, i requires 0 <= i < |vs| => vs[i] - d)
  }

  ghost function StoredRefs(gs: seq<seq<Cell>>, nb: nat): (rs: seq<int>)
    ensures |rs| == |gs|
  {
    seq(|gs|, i requires 0 <= i < |gs| => StoredRef(GroupRef(gs[i]), nb))
  }

  /** Lengths as stored: the reference is removed from all but the last, which stays as it is. */
  function StoredLens(lens: seq<nat>, ref: int): (r: seq<int>)
    ensures |r| == |lens|
  {
    seq(|lens|, i requires 0 <= i < |lens| => if i < |lens| - 1 then lens[i] - ref else lens[i])
  }

  /** The group lengths that the length reference and width are computed from. */
  ghost function Inner(lens: seq<nat>): (r: seq<int>)
    requires lens != []
    ensures r != []
  {
    if |lens| == 1 then lens else lens[..|lens| - 1]
  }

  ghost function HeaderOf(ds: seq<int>, order: nat): (h: Header)
    requires order <= 2
  {
    if order == 0 then Header(0, 0, 0)
    else Header(At(ds, 0), if order == 2 then At(ds, 1) else 0, MinDiff(ds, order))
  }

  /** The template that the encoder fills in. */
  ghost function TemplateOf(gs: seq<seq<Cell>>, lens: seq<nat>, order: nat, missopt: nat, h: Header): (t: Drt)
    requires |gs| == |lens| > 0
  {
    var ws := Widths(gs, missopt);
    var ngwidthref := MinOf(ws);
    assert ngwidthref in ws;
    var inner := Inner(lens);
    var nglenref := MinOf(inner);
    assert nglenref in inner;
    Drt(order, missopt, CeilLog2(MaxOf(Refs(gs)) + missopt + 1), |gs|,
        ngwidthref, CeilLog2(MaxOf(ws) - ngwidthref + 1),
        nglenref, 1, lens[|lens| - 1], CeilLog2(MaxOf(inner) - nglenref + 1),
        if order == 0 then 0 else HeaderWidth(h.ival1, h.ival2, h.minsd))
  }

  ghost function BodyBits(gs: seq<seq<Cell>>, lens: seq<nat>, t: Drt): (s: seq<bit>)
    requires |gs| == |lens| > 0
  {
    RunBits(StoredRefs(gs, t.nbitsgref), t.nbitsgref)
    + RunBits(Minus(Widths(gs, t.missopt), t.ngwidthref), t.nbitsgwidth)
    + RunBits(StoredLens(lens, t.nglenref), t.nbitsglen)
    + DataBits(gs, t.missopt)
  }

  ghost function FieldBits(gs: seq<seq<Cell>>, lens: seq<nat>, t: Drt, h: Header): (s: seq<bit>)
    requires |gs| == |lens| > 0
    requires t.order == 0 || t.nbitsd >= 1
  {
    Pad8((if t.order == 0 then [] else HeaderBits(t.order, h.ival1, h.ival2, h.minsd, t.nbitsd))
         + BodyBits(gs, lens, t))
  }

  function TotalBits(widths: seq<nat>, lens: seq<nat>): (n: nat)
    requires |widths| == |lens|
  {
    if lens == [] then 0 else lens[0] * widths[0] + TotalBits(widths[1..], lens[1..])
  }

  function PlusAll(vs: seq<nat>, d: nat): (r: seq<nat>)
    ensures |r| == |vs|
  {
    seq(|vs|, i requires 0 <= i < |vs| => vs[i] + d)
  }

  function RestoredLens(xs: seq<nat>, t: Drt): (r: seq<nat>)
    ensures |r| == |xs|
  {
    seq(|xs|, i requires 0 <= i < |xs| => if i == |xs| - 1 then t.nglenlast else RestoredLen(xs[i], t))
  }

  function RestoredLen(x: nat, t: Drt): (n: nat)
  {
    MulLe(0, x, t.lenInc);
    x * t.lenInc + t.nglenref
  }

  /** What `comunpack` makes of the bits s of a section of lensec octets; an order beyond 2 has a header and no sums. */
  ghost function Decode(t: Drt, s: seq<bit>, lensec: nat, ndpts: nat): (d: Decoded)
  {
    if t.ngroups == 0 then Constant else
    var h := FetchHeader(s, t.order, t.nbitsd);
    if h.None? then Invalid else
    var refs := FetchRun(h.value.1, t.nbitsgref, t.ngroups);
    if refs.None? then Invalid else
    var widths := FetchRun(refs.value.1, t.nbitsgwidth, t.ngroups);
    if widths.None? then Invalid else
    var lens := FetchRun(widths.value.1, t.nbitsglen, t.ngroups);
    if lens.None? then Invalid else
    DecodeGroups(t, lens.value.1, h.value.0, refs.value.0, PlusAll(widths.value.0, t.ngwidthref),
                 RestoredLens(lens.value.0, t), lensec, ndpts)
  }

  ghost function DecodeGroups(t: Drt, s: seq<bit>, h: Header, refs: seq<nat>, widths: seq<nat>, lens: seq<nat>,
                              lensec: nat, ndpts: nat): (d: Decoded)
    requires |refs| == |widths| == |lens|
  {
    if Sum(lens) != ndpts || TotalBits(widths, lens) > 8 * lensec then Invalid else
    var cells := FetchGroups(s, refs, widths, lens, t.missopt, t.nbitsgref);
    if cells.None? then Invalid else
    var ds := DataOf(cells.value);
    Field(Refill(cells.value, if t.order <= 2 then Summed(ds, t.order, h.ival1, h.ival2, h.minsd) else ds))
  }

  // ----- the groups are read back

  lemma {:induction false} FetchGroupsCons(e: seq<bit>, s: seq<bit>, refs: seq<int>, widths: seq<nat>, lens: seq<nat>,
                                           missopt: nat, nb: nat, cs: seq<Cell>, tail: seq<Cell>)
    requires |refs| == |widths| == |lens| > 0 && |e| == lens[0] * widths[0]
    requires GroupCells(e + s, refs[0], widths[0], lens[0], missopt, nb) == cs
    requires FetchGroups(s, refs[1..], widths[1..], lens[1..], missopt, nb) == Some(tail)
    ensures FetchGroups(e + s, refs, widths, lens, missopt, nb) == Some(cs + tail)
  {
    hide GroupCells;
    assert (e + s)[|e|..] == s;
  }

  lemma {:induction false} GroupsRoundTrip(gs: seq<seq<Cell>>, lens: seq<nat>, missopt: nat, nb: nat, rest: seq<bit>)
    requires missopt <= 2 && |gs| == |lens|
    requires forall i :: 0 <= i < |gs| ==> |gs[i]| == lens[i] && Allowed(gs[i], missopt)
    requires forall i :: 0 <= i < |gs| ==> RefsTell(gs[i], missopt, nb)
    requires forall i, v :: 0 <= i < |gs| && v in DataOf(gs[i]) ==> v >= 0
    ensures FetchGroups(DataBits(gs, missopt) + rest, StoredRefs(gs, nb), Widths(gs, missopt), lens, missopt, nb)
         == Some(Flatten(gs))
    ensures |DataBits(gs, missopt)| == TotalBits(Widths(gs, missopt), lens)
    decreases |gs|
  {
    hide Allowed, RefsTell, GroupCells, GroupBits, GroupWidth, GroupRef, StoredRef, DataOf, FetchGroups, DataBits,
         StoredRefs, TotalBits, Flatten;
    if gs != [] {
      var g, tail := gs[0], gs[1..];
      assert forall i :: 0 <= i < |tail| ==> tail[i] == gs[i + 1];
      GroupsRoundTrip(tail, lens[1..], missopt, nb, rest);
      GroupsCons(gs, missopt, nb, lens);
      var e, f := GroupBits(g, missopt), DataBits(tail, missopt);
      GroupRoundTrip(g, missopt, nb, f + rest);
      Assoc(e, f, rest);
      FetchGroupsCons(e, f + rest, StoredRefs(gs, nb), Widths(gs, missopt), lens, missopt, nb, g, Flatten(tail));
    } else {
      NoGroups(missopt, nb, rest);
    }
  }

  lemma {:induction false} NoGroups(missopt: nat, nb: nat, rest: seq<bit>)
    ensures FetchGroups(DataBits([], missopt) + rest, StoredRefs([], nb), Widths([], missopt), [], missopt, nb) ==
      Some(Flatten([]))
    ensures |DataBits([], missopt)| == TotalBits(Widths([], missopt), [])
  {
    assert DataBits([], missopt) + rest == rest;
  }

  lemma {:induction false} GroupsCons(gs: seq<seq<Cell>>, missopt: nat, nb: nat, lens: seq<nat>)
    requires gs != [] && |lens| == |gs|
    ensures DataBits(gs, missopt) == GroupBits(gs[0], missopt) + DataBits(gs[1..], missopt)
    ensures StoredRefs(gs, nb)[0] == StoredRef(GroupRef(gs[0]), nb)
    ensures StoredRefs(gs, nb)[1..] == StoredRefs(gs[1..], nb)
    ensures Widths(gs, missopt)[0] == GroupWidth(gs[0], missopt) && Widths(gs, missopt)[1..] == Widths(gs[1..], missopt)
    ensures TotalBits(Widths(gs, missopt), lens) ==
      lens[0] * GroupWidth(gs[0], missopt) + TotalBits(Widths(gs[1..], missopt), lens[1..])
    ensures Flatten(gs) == gs[0] + Flatten(gs[1..])
  {
    hide GroupBits, GroupWidth, GroupRef, StoredRef;
    assert Widths(gs, missopt)[1..] == Widths(gs[1..], missopt);
  }

  // ----- the descriptors are read back

  lemma {:induction false} RefInRange(g: seq<Cell>, missopt: nat, top: int)
    requires missopt <= 2 && Allowed(g, missopt) && g != []
    requires forall v :: v in DataOf(g) ==> v >= 0
    requires GroupRef(g) <= top
    requires missopt == 2 ==> top >= -1
    ensures var nb := CeilLog2(top + missopt + 1);
            0 <= StoredRef(GroupRef(g), nb) < Pow2(nb) && RefsTell(g, missopt, nb)
  {
    var nb, ds := CeilLog2(top + missopt + 1), DataOf(g);
    if ds == [] {
      forall i | 0 <= i < |g| ensures !g[i].Data? {
        if g[i].Data? { DataOfMember(g, i); }
      }
      assert g[0] == Primary || g[0] == Secondary;
      if nb > 0 { assert Pow2(nb) == 2 * Pow2(nb - 1); }
    } else if missopt == 0 {
      forall i | 0 <= i < |g| && GroupWidth(g, missopt) == 0 ensures g[i] == Data(MinOf(ds)) {
        DataOfMember(g, i);
        assert Pow2(0) == 1;
      }
    } else {
      CeilLog2Zero(MaxOf(ds) - MinOf(ds) + missopt + 1);
    }
  }

  lemma {:induction false} SpreadFits(vs: seq<int>, i: nat)
    requires i < |vs|
    ensures 0 <= vs[i] - MinOf(vs) < Pow2(CeilLog2(MaxOf(vs) - MinOf(vs) + 1))
  {
  }

  lemma {:induction false} WidthsRoundTrip(ws: seq<int>, ref: nat, w: nat, rest: seq<bit>)
    requires ws != [] && ref == MinOf(ws) && w == CeilLog2(MaxOf(ws) - ref + 1)
    ensures var r := FetchRun(RunBits(Minus(ws, ref), w) + rest, w, |ws|);
            r.Some? && PlusAll(r.value.0, ref) == ws && r.value.1 == rest
  {
    hide FetchRun, RunBits, MinOf, MaxOf, CeilLog2, Pow2;
    forall i | 0 <= i < |ws| ensures 0 <= Minus(ws, ref)[i] < Pow2(w) {
      SpreadFits(ws, i);
    }
    FetchRunExact(Minus(ws, ref), w, rest);
  }

  /** The stored length of the last group may be cut off: the template's own entry overrides it. */
  lemma {:induction false} LensRoundTrip(lens: seq<nat>, t: Drt, rest: seq<bit>)
    requires lens != []
    requires t.nglenref == MinOf(Inner(lens)) && t.lenInc == 1 && t.nglenlast == lens[|lens| - 1]
    requires t.nbitsglen == CeilLog2(MaxOf(Inner(lens)) - t.nglenref + 1)
    ensures var r := FetchRun(RunBits(StoredLens(lens, t.nglenref), t.nbitsglen) + rest, t.nbitsglen, |lens|);
            r.Some? && RestoredLens(r.value.0, t) == lens && r.value.1 == rest
  {
    hide RunBits, MinOf, MaxOf, CeilLog2, Pow2, LowAll, DecAll;
    var vs, w := StoredLens(lens, t.nglenref), t.nbitsglen;
    var xs: seq<nat> := if w == 0 then seq(|lens|, _ => 0) else LowAll(vs, w);
    assert FetchRun(RunBits(vs, w) + rest, w, |vs|) == Some((xs, rest)) by {
      FetchRunBits(vs, w, rest);
    }
    LensRestored(lens, t, xs);
  }

  lemma {:induction false} LensRestored(lens: seq<nat>, t: Drt, xs: seq<nat>)
    requires lens != []
    requires t.nglenref == MinOf(Inner(lens)) && t.lenInc == 1 && t.nglenlast == lens[|lens| - 1]
    requires t.nbitsglen == CeilLog2(MaxOf(Inner(lens)) - t.nglenref + 1)
    requires xs == if t.nbitsglen == 0 then seq(|lens|, _ => 0) else LowAll(StoredLens(lens, t.nglenref), t.nbitsglen)
    ensures RestoredLens(xs, t) == lens
  {
    hide MinOf, MaxOf, CeilLog2, Low, Inner, RestoredLen;
    forall i | 0 <= i < |lens| - 1 ensures RestoredLen(xs[i], t) == lens[i] {
      LenRestored(lens, t, i);
    }
  }

  lemma {:induction false} LenRestored(lens: seq<nat>, t: Drt, i: nat)
    requires i + 1 < |lens| && t.nglenref == MinOf(Inner(lens)) && t.lenInc == 1
    requires t.nbitsglen == CeilLog2(MaxOf(Inner(lens)) - t.nglenref + 1)
    ensures RestoredLen(if t.nbitsglen == 0 then 0 else Low(lens[i] - t.nglenref, t.nbitsglen), t) == lens[i]
  {
    hide MinOf, MaxOf, CeilLog2, Low;
    assert Inner(lens)[i] == lens[i];
    SpreadFits(Inner(lens), i);
    LowIdentity(lens[i] - t.nglenref, t.nbitsglen);
  }
}
