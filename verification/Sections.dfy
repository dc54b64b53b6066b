/** The contents of sections 1 to 7, how each is laid out, and what the readers make of it. */
module Sections {
  import opened Options
  import opened Shifts
  import opened BitString
  import opened SignMagnitude
  import opened Templates
  import opened SectionFormat

  datatype Content =
    | Identification(list: seq<int>)
    | Local(octets: seq<byte>)
    | GridDefinition(igds: seq<int>, gtmpl: seq<int>, deflist: seq<int>)
    | ProductDefinition(pnum: int, ptmpl: seq<int>, coords: seq<int>)
    | DataRepresentation(ndpts: int, dnum: int, dtmpl: seq<int>)
    | Bitmap(ibmap: int, bmap: seq<int>)
    | Data(cpack: seq<byte>)

  function Number(c: Content): (n: nat)
    ensures 1 <= n <= 7
  {
    match c
    case Identification(_) => 1
    case Local(_) => 2
    case GridDefinition(_, _, _) => 3
    case ProductDefinition(_, _, _) => 4
    case DataRepresentation(_, _, _) => 5
    case Bitmap(_, _) => 6
    case Data(_) => 7
  }

  const IDENT: seq<entry> := [2, 2, 1, 1, 1, 2, 1, 1, 1, 1, 1, 1, 1]
  const GDS: seq<entry> := [1, 4, 1, 1, 2]
  const PDS: seq<entry> := [2, 2]
  const DRS: seq<entry> := [4, 2]

  /** The lists have the lengths that their templates call for. */
  ghost predicate Formed(c: Content)
  {
    match c
    case Identification(list) => |list| == 13
    case Local(_) => true
    case GridDefinition(igds, gtmpl, _) =>
      && |igds| == 5 && igds[2] >= 0
      && (if igds[0] == 0 then Complete(Grid, igds[4], gtmpl) else gtmpl == [])
    case ProductDefinition(pnum, ptmpl, _) => Complete(Product, pnum, ptmpl)
    case DataRepresentation(_, dnum, dtmpl) => Complete(Representation, dnum, dtmpl)
    case Bitmap(_, _) => true
    case Data(_) => true
  }

  type section = c: Content | Formed(c) ghost witness Local([])

  /** The number of the grid template, or that of none. */
  function GridNumber(igds: seq<int>): (n: int)
    requires |igds| == 5
  {
    if igds[0] == 0 then igds[4] else 65535
  }

  function GridBits(igds: seq<int>, gtmpl: seq<int>): (s: seq<bit>)
    requires |igds| == 5 && igds[2] >= 0 && (if igds[0] == 0 then Complete(Grid, igds[4], gtmpl) else gtmpl == [])
  {
    ListBits(GDS, igds[4 := GridNumber(igds)])
    + (if igds[0] == 0 then ListBits(FullMap(Grid, igds[4], gtmpl), gtmpl) else [])
  }

  function OptionalList(numoct: nat, deflist: seq<int>): (s: seq<bit>)
  {
    if numoct == 0 then [] else EncAll(deflist, 8 * numoct)
  }

  lemma {:induction false} OctetRun(vs: seq<int>, n: nat)
    ensures |EncAll(vs, 8 * n)| % 8 == 0 && |EncAll(vs, 8 * n)| == |vs| * (8 * n)
  {
    EncAllLength(vs, 8 * n);
    assert |vs| * (8 * n) == 8 * (|vs| * n);
  }

  function Body(c: section): (s: seq<bit>)
  {
    match c
    case Identification(list) => ListBits(IDENT, list)
    case Local(octets) => Bits(octets)
    case GridDefinition(igds, gtmpl, deflist) => GridBits(igds, gtmpl) + OptionalList(igds[2], deflist)
    case ProductDefinition(pnum, ptmpl, coords) =>
      ListBits(PDS, [|coords|, pnum]) + ListBits(FullMap(Product, pnum, ptmpl), ptmpl) + EncAll(coords, 32)
    case DataRepresentation(ndpts, dnum, dtmpl) =>
      ListBits(DRS, [ndpts, dnum]) + ListBits(FullMap(Representation, dnum, dtmpl), dtmpl)
    case Bitmap(ibmap, bmap) => Pad8(Enc(ibmap, 8) + if ibmap == 0 then EncAll(bmap, 1) else [])
    case Data(cpack) => Bits(cpack)
  }

  lemma {:induction false} BodyOctets(c: section)
    ensures |Body(c)| % 8 == 0
  {
    hide ListBits, FullMap, EncAll, Lookup, Tail, ListWidth;
    match c
    case GridDefinition(igds, gtmpl, deflist) =>
      OctetRun(deflist, igds[2]);
      Whole(ListWidth(GDS), if igds[0] == 0 then ListWidth(FullMap(Grid, igds[4], gtmpl)) else 0);
      Whole(|GridBits(igds, gtmpl)|, |OptionalList(igds[2], deflist)|);
    case ProductDefinition(pnum, ptmpl, coords) =>
      OctetRun(coords, 4);
      Whole(ListWidth(PDS), ListWidth(FullMap(Product, pnum, ptmpl)));
      Whole(ListWidth(PDS) + ListWidth(FullMap(Product, pnum, ptmpl)), |EncAll(coords, 32)|);
    case DataRepresentation(_, dnum, dtmpl) =>
      Whole(ListWidth(DRS), ListWidth(FullMap(Representation, dnum, dtmpl)));
    case _ =>
  }

  /** Octets of the section, its length and number included. */
  function Octets(c: section): (n: nat)
    ensures n >= 5 && 8 * n == 40 + |Body(c)|
  {
    BodyOctets(c);
    5 + |Body(c)| / 8
  }

  function SectionBits(c: section): (s: seq<bit>)
    ensures |s| == 8 * Octets(c)
  {
    Enc(Octets(c), 32) + Enc(Number(c), 8) + Body(c)
  }

  // ----- what the readers make of a bit string that starts at a section

  predicate IsSection(s: seq<bit>, n: nat)
  {
    |s| >= 40 && Dec(s[32..40]) == n
  }

  function Length(s: seq<bit>): (n: nat)
    requires |s| >= 32
  {
    Dec(s[..32])
  }

  function Unpack1(s: seq<bit>): (r: Got<seq<int>>)
  {
    if !IsSection(s, 1) then Bad(2) else
    var a := FetchList(s[40..], IDENT);
    if a.None? then Bad(2) else Got(a.value.0)
  }

  function Unpack2(s: seq<bit>): (r: Got<seq<nat>>)
  {
    if !IsSection(s, 2) then Bad(2) else
    var n := if Length(s) < 5 then 0 else Length(s) - 5;
    if 40 + n * 8 > |s| then Bad(2) else Got(DecAll(s[40..], 8, n))
  }

  datatype GridRecord = GridRecord(igds: seq<int>, gtmpl: seq<int>, deflist: seq<int>)

  function Unpack3(s: seq<bit>): (r: Got<GridRecord>)
    ensures r.Got? ==> |r.value.igds| == 5
  {
    if !IsSection(s, 3) then Bad(2) else
    var a := FetchList(s[40..], GDS);
    if a.None? then Bad(2) else
    var igds := a.value.0;
    if igds[4] == 65535 then OptionalPart(igds, [], Length(s) - 14, a.value.1) else
    var b := FetchTemplate(Grid, igds[4], a.value.1);
    if b.Bad? then Bad(b.ierr) else
    OptionalPart(igds, b.value.0, Length(s) - 14 - ListWidth(FullMap(Grid, igds[4], b.value.0)) / 8, b.value.1)
  }

  /** The list of points per row, in what is left of the section. */
  function OptionalPart(igds: seq<int>, gtmpl: seq<int>, left: int, s: seq<bit>): (r: Got<GridRecord>)
    requires |igds| == 5
    ensures r.Got? ==> |r.value.igds| == 5
  {
    if igds[2] == 0 then Got(GridRecord(igds, gtmpl, []))
    else if igds[2] < 0 || left < igds[2] then Bad(6)
    else
      var n := Truncated(left, igds[2]);
      if n * (8 * igds[2]) > |s| then Bad(2) else Got(GridRecord(igds, gtmpl, DecAll(s, 8 * igds[2], n)))
  }

  datatype ProductRecord = ProductRecord(pnum: int, ptmpl: seq<int>, coords: seq<int>)

  function Unpack4(s: seq<bit>): (r: Got<ProductRecord>)
  {
    if !IsSection(s, 4) then Bad(2) else
    var a := FetchList(s[40..], PDS);
    if a.None? then Bad(2) else
    var numcoord, pnum := a.value.0[0], a.value.0[1];
    var b := FetchTemplate(Product, pnum, a.value.1);
    if b.Bad? then Bad(b.ierr) else
    if numcoord < 0 || numcoord * 32 > |b.value.1| then Bad(2) else
    Got(ProductRecord(pnum, b.value.0, DecAll(b.value.1, 32, numcoord)))
  }

  datatype DataRecord = DataRecord(ndpts: int, dnum: int, dtmpl: seq<int>)

  /** How section 7 is unpacked: grid, representation and the bits from section 7 on give the data. */
  type Unpacker = (Option<GridRecord>, Option<DataRecord>, seq<bit>) -> Option<seq<real>>

  function Unpack5(s: seq<bit>): (r: Got<DataRecord>)
  {
    if !IsSection(s, 5) then Bad(2) else
    var a := FetchList(s[40..], DRS);
    if a.None? then Bad(2) else
    var b := FetchTemplate(Representation, a.value.0[1], a.value.1);
    if b.Bad? then Bad(b.ierr) else Got(DataRecord(a.value.0[0], a.value.0[1], b.value.0))
  }

  /** The indicator, and the bit map when it is in the section. */
  function Unpack6(s: seq<bit>, ngpts: int): (r: Got<(int, seq<int>)>)
  {
    if !IsSection(s, 6) || |s| < 48 then Bad(2) else
    var ibmap := Dec(s[40..48]);
    if ibmap != 0 then Got((ibmap, []))
    else if ngpts <= 0 then Bad(6)
    else if ngpts * 1 > |s| - 48 then Bad(2)
    else Got((ibmap, DecAll(s[48..], 1, ngpts)))
  }

  // ----- they undo the layout

  lemma {:induction false} HeadSlices(a: seq<bit>, b: seq<bit>, body: seq<bit>, rest: seq<bit>)
    requires |a| == 32 && |b| == 8
    ensures var s := a + b + body + rest; s[..32] == a && s[32..40] == b && s[40..] == body + rest
  {
    var s := a + b + body + rest;
    assert s == a + (b + (body + rest));
    assert s == (a + b) + (body + rest);
  }

  lemma {:induction false} SectionIs(c: section)
    ensures SectionBits(c) == Enc(Octets(c), 32) + Enc(Number(c), 8) + Body(c)
  {
    hide Enc, Body, Formed, Octets;
  }

  lemma {:induction false} HeadRead(c: section, rest: seq<bit>)
    requires Octets(c) < Pow2(32)
    ensures var s := SectionBits(c) + rest;
      && IsSection(s, Number(c)) && Length(s) == Octets(c)
      && (forall n :: IsSection(s, n) ==> n == Number(c))
      && s[40..] == Body(c) + rest
  {
    hide Body, Enc, Dec, Pow2, SectionBits, Octets, Formed;
    SectionIs(c);
    HeadSlices(Enc(Octets(c), 32), Enc(Number(c), 8), Body(c), rest);
    DecEnc(Octets(c), 32);
    LowIdentity(Octets(c), 32);
    DecByte(Number(c));
  }

  /** Values that their fields can hold; what the builder does not check. */
  ghost predicate Storable(c: section)
  {
    match c
    case Identification(list) => AllInRange(IDENT, list)
    case Local(_) => true
    case GridDefinition(igds, gtmpl, deflist) =>
      && AllInRange(GDS, igds[4 := GridNumber(igds)])
      && (if igds[0] == 0 then igds[4] != 65535 && AllInRange(FullMap(Grid, igds[4], gtmpl), gtmpl) else true)
      && (if igds[2] == 0 then deflist == [] else deflist != [] && Fit(deflist, 8 * igds[2]))
    case ProductDefinition(pnum, ptmpl, coords) =>
      && AllInRange(PDS, [|coords|, pnum]) && AllInRange(FullMap(Product, pnum, ptmpl), ptmpl) && Fit(coords, 32)
    case DataRepresentation(ndpts, dnum, dtmpl) =>
      && AllInRange(DRS, [ndpts, dnum]) && AllInRange(FullMap(Representation, dnum, dtmpl), dtmpl)
    case Bitmap(ibmap, bmap) => 0 <= ibmap < 256 && (if ibmap == 0 then Fit(bmap, 1) else bmap == [])
    case Data(_) => true
  }

  ghost predicate Fit(vs: seq<int>, w: nat)
  {
    forall i :: 0 <= i < |vs| ==> 0 <= vs[i] < Pow2(w)
  }

  lemma {:induction false} RunRead(vs: seq<int>, w: nat, rest: seq<bit>)
    requires Fit(vs, w)
    ensures |vs| * w <= |EncAll(vs, w) + rest| && DecAll(EncAll(vs, w) + rest, w, |vs|) == vs
  {
    DecEncAll(vs, w, rest);
    LowAllIdentity(vs, w);
  }

  lemma {:induction false} OctetsFit(a: seq<byte>)
    ensures Fit(a, 8)
  {
    Pow2Small();
  }

  lemma {:induction false} OnesWidth(n: nat)
    ensures ListWidth(seq(n, _ => 1)) == 8 * n
  {
    if n > 0 {
      OnesWidth(n - 1);
      assert seq(n, _ => 1)[1..] == seq(n - 1, _ => 1);
    }
  }

  lemma {:induction false} IdentWidth()
    ensures ListWidth(IDENT) == 128
  {
    hide ListBits, ListWidth;
    var a: seq<entry>, b: seq<entry>, c: seq<entry>, d: seq<entry> := [2, 2], seq(3, _ => 1), [2], seq(7, _ => 1);
    assert IDENT == a + b + c + d;
    OnesWidth(3);
    OnesWidth(7);
    assert a[1..] == c && c[1..] == [];
    ListNil();
    ListCons(c, [0]);
    ListCons(a, [0, 0]);
    ListConcat(a, b, seq(5, _ => 0));
    ListConcat(a + b, c, seq(6, _ => 0));
    ListConcat(a + b + c, d, seq(13, _ => 0));
  }

  lemma {:induction false} Read1(c: section, rest: seq<bit>)
    requires c.Identification? && Storable(c) && Octets(c) < Pow2(32)
    ensures Unpack1(SectionBits(c) + rest) == Got(c.list)
  {
    hide SectionBits, ListBits, FetchList, AllInRange, IsSection, Octets;
    HeadRead(c, rest);
    ListRoundTrip(IDENT, c.list, rest);
  }

  lemma {:induction false} Read2(c: section, rest: seq<bit>)
    requires c.Local? && Octets(c) < Pow2(32)
    ensures Unpack2(SectionBits(c) + rest) == Got(c.octets)
  {
    hide SectionBits, EncAll, DecAll, IsSection, Pow2;
    HeadRead(c, rest);
    OctetsFit(c.octets);
    RunRead(c.octets, 8, rest);
    EncAllLength(c.octets, 8);
  }

  lemma {:induction false} ListsLeft(n: nat, d: nat, left: int, total: nat)
    requires n >= 1 && d >= 1 && 8 * left == total == n * (8 * d)
    ensures left >= d && Truncated(left, d) == n
  {
    assert n * (8 * d) == 8 * (n * d);
    MulLe(1, n, d);
    DivModUnique(left, d, n, 0);
  }

  lemma {:induction false} OptionalRead(igds: seq<int>, gtmpl: seq<int>, deflist: seq<int>, left: int, rest: seq<bit>)
    requires |igds| == 5 && igds[2] >= 0
    requires if igds[2] == 0 then deflist == [] else deflist != [] && Fit(deflist, 8 * igds[2])
    requires 8 * left == |OptionalList(igds[2], deflist)|
    ensures OptionalPart(igds, gtmpl, left, OptionalList(igds[2], deflist) + rest) ==
      Got(GridRecord(igds, gtmpl, deflist))
  {
    hide EncAll, DecAll, Fit;
    if igds[2] != 0 {
      OctetRun(deflist, igds[2]);
      ListsLeft(|deflist|, igds[2], left, |EncAll(deflist, 8 * igds[2])|);
      RunRead(deflist, 8 * igds[2], rest);
    }
  }

  /** What is read of a section 3 after its first fields. */
  ghost function AfterGds(igds: seq<int>, len: int, s: seq<bit>): (r: Got<GridRecord>)
    requires |igds| == 5
  {
    hide FetchTemplate, OptionalPart, ListWidth;
    if igds[4] == 65535 then OptionalPart(igds, [], len - 14, s) else
    var b := FetchTemplate(Grid, igds[4], s);
    if b.Bad? then Bad(b.ierr) else
    OptionalPart(igds, b.value.0, len - 14 - ListWidth(FullMap(Grid, igds[4], b.value.0)) / 8, b.value.1)
  }

  lemma {:induction false} Unpack3Is(s: seq<bit>, igds: seq<int>, rest: seq<bit>)
    requires IsSection(s, 3) && FetchList(s[40..], GDS) == Some((igds, rest))
    ensures |igds| == 5 && Unpack3(s) == AfterGds(igds, Length(s), rest)
  {
    hide FetchList, FetchTemplate, OptionalPart, ListWidth, Lookup, Tail, Dec;
  }

  lemma {:induction false} AfterGdsRead(c: section, igds: seq<int>, rest: seq<bit>)
    requires c.GridDefinition? && Storable(c) && igds == c.igds[4 := GridNumber(c.igds)]
    ensures var b := if igds[0] == 0 then ListBits(FullMap(Grid, igds[4], c.gtmpl), c.gtmpl) else [];
      AfterGds(igds, Octets(c), b + (OptionalList(igds[2], c.deflist) + rest)) ==
        Got(GridRecord(igds, c.gtmpl, c.deflist))
  {
    hide ListBits, AllInRange, OptionalList, OptionalPart, FullMap, Lookup, Tail, FetchTemplate, ListWidth, Body,
         Octets, Fit;
    var l := OptionalList(igds[2], c.deflist);
    GridBody(c);
    if igds[0] == 0 {
      TemplateRoundTrip(Grid, igds[4], c.gtmpl, l + rest);
      OptionalRead(igds, c.gtmpl, c.deflist, Octets(c) - 14 - ListWidth(FullMap(Grid, igds[4], c.gtmpl)) / 8, rest);
    } else {
      assert [] + (l + rest) == l + rest;
      OptionalRead(igds, c.gtmpl, c.deflist, Octets(c) - 14, rest);
    }
  }

  /** The template number comes back as "none" when a grid source other than 0 was given. */
  lemma {:induction false} Read3(c: section, rest: seq<bit>)
    requires c.GridDefinition? && Storable(c) && Octets(c) < Pow2(32)
    ensures Unpack3(SectionBits(c) + rest) == Got(GridRecord(c.igds[4 := GridNumber(c.igds)], c.gtmpl, c.deflist))
  {
    hide SectionBits, ListBits, FetchList, AllInRange, IsSection, OptionalList, FullMap, Lookup, Tail, ListWidth, Body,
         Octets, Unpack3, AfterGds, Fit, Length;
    var igds := c.igds[4 := GridNumber(c.igds)];
    var b := if igds[0] == 0 then ListBits(FullMap(Grid, igds[4], c.gtmpl), c.gtmpl) else [];
    var l := OptionalList(igds[2], c.deflist);
    HeadRead(c, rest);
    GridBody(c);
    Threefold(ListBits(GDS, igds), b, l, rest);
    ListRoundTrip(GDS, igds, b + (l + rest));
    Unpack3Is(SectionBits(c) + rest, igds, b + (l + rest));
    AfterGdsRead(c, igds, rest);
  }

  lemma {:induction false} Threefold(a: seq<bit>, b: seq<bit>, l: seq<bit>, rest: seq<bit>)
    ensures a + b + l + rest == a + (b + (l + rest))
  {
  }

  lemma {:induction false} GridBody(c: section)
    requires c.GridDefinition?
    ensures var igds := c.igds[4 := GridNumber(c.igds)];
      var b := if igds[0] == 0 then ListBits(FullMap(Grid, igds[4], c.gtmpl), c.gtmpl) else [];
      && Body(c) == ListBits(GDS, igds) + b + OptionalList(igds[2], c.deflist)
      && 8 * Octets(c) == 112 + |b| + |OptionalList(igds[2], c.deflist)|
  {
    hide ListBits, OptionalList, FullMap, Lookup, Tail, ListWidth;
    GdsWidth();
  }

  lemma {:induction false} GdsWidth()
    ensures ListWidth(GDS) == 72
  {
    assert GDS[1..] == [4, 1, 1, 2] && GDS[1..][1..] == [1, 1, 2] && GDS[1..][1..][1..] == [1, 2];
    assert ListWidth([1, 2]) == 24;
    assert ListWidth([1, 1, 2]) == 32;
    assert ListWidth([4, 1, 1, 2]) == 64;
  }

  lemma {:induction false} ProductBody(c: section)
    requires c.ProductDefinition?
    ensures Body(c) == ListBits(PDS, [|c.coords|, c.pnum]) + ListBits(FullMap(Product, c.pnum, c.ptmpl), c.ptmpl) +
      EncAll(c.coords, 32)
  {
    hide ListBits, FullMap, EncAll;
  }

  lemma {:induction false} Read4(c: section, rest: seq<bit>)
    requires c.ProductDefinition? && Storable(c) && Octets(c) < Pow2(32)
    ensures Unpack4(SectionBits(c) + rest) == Got(ProductRecord(c.pnum, c.ptmpl, c.coords))
  {
    hide SectionBits, ListBits, FetchList, AllInRange, IsSection, FullMap, Lookup, Tail, FetchTemplate, ListWidth,
         EncAll, DecAll, Octets, Fit, Body, Unpack4, Pow2;
    var a, b := ListBits(PDS, [|c.coords|, c.pnum]), ListBits(FullMap(Product, c.pnum, c.ptmpl), c.ptmpl);
    var l := EncAll(c.coords, 32);
    HeadRead(c, rest);
    ProductBody(c);
    Threefold(a, b, l, rest);
    ListRoundTrip(PDS, [|c.coords|, c.pnum], b + (l + rest));
    TemplateRoundTrip(Product, c.pnum, c.ptmpl, l + rest);
    RunRead(c.coords, 32, rest);
    Unpack4Is(SectionBits(c) + rest, |c.coords|, c.pnum, b + (l + rest), c.ptmpl, l + rest);
  }

  lemma {:induction false} Unpack4Is(s: seq<bit>, n: nat, pnum: int, t: seq<bit>, ptmpl: seq<int>, u: seq<bit>)
    requires IsSection(s, 4) && FetchList(s[40..], PDS) == Some(([n, pnum], t))
    requires FetchTemplate(Product, pnum, t) == Got((ptmpl, u))
    requires n * 32 <= |u|
    ensures Unpack4(s) == Got(ProductRecord(pnum, ptmpl, DecAll(u, 32, n)))
  {
    hide IsSection, FetchList, FetchTemplate, DecAll;
  }

  lemma {:induction false} Read5(c: section, rest: seq<bit>)
    requires c.DataRepresentation? && Storable(c) && Octets(c) < Pow2(32)
    ensures Unpack5(SectionBits(c) + rest) == Got(DataRecord(c.ndpts, c.dnum, c.dtmpl))
  {
    hide SectionBits, ListBits, FetchList, AllInRange, IsSection, FullMap, Lookup, Tail, FetchTemplate, ListWidth,
         Octets, Body, Unpack5, Pow2;
    var a, b := ListBits(DRS, [c.ndpts, c.dnum]), ListBits(FullMap(Representation, c.dnum, c.dtmpl), c.dtmpl);
    HeadRead(c, rest);
    RepresentationBody(c);
    Assoc(a, b, rest);
    ListRoundTrip(DRS, [c.ndpts, c.dnum], b + rest);
    TemplateRoundTrip(Representation, c.dnum, c.dtmpl, rest);
    Unpack5Is(SectionBits(c) + rest, c.ndpts, c.dnum, b + rest, c.dtmpl, rest);
  }

  lemma {:induction false} RepresentationBody(c: section)
    requires c.DataRepresentation?
    ensures Body(c) == ListBits(DRS, [c.ndpts, c.dnum]) + ListBits(FullMap(Representation, c.dnum, c.dtmpl), c.dtmpl)
  {
    hide ListBits, FullMap, Lookup, Tail, ListWidth;
  }

  lemma {:induction false} Unpack5Is(s: seq<bit>, ndpts: int, dnum: int, t: seq<bit>, dtmpl: seq<int>, u: seq<bit>)
    requires IsSection(s, 5) && FetchList(s[40..], DRS) == Some(([ndpts, dnum], t))
    requires FetchTemplate(Representation, dnum, t) == Got((dtmpl, u))
    ensures Unpack5(s) == Got(DataRecord(ndpts, dnum, dtmpl))
  {
    hide IsSection, FetchList, FetchTemplate;
  }

  lemma {:induction false} BitmapBody(ibmap: int, bmap: seq<int>, rest: seq<bit>) returns (tail: seq<bit>)
    ensures var l := if ibmap == 0 then EncAll(bmap, 1) else [];
      Body(Bitmap(ibmap, bmap)) + rest == Enc(ibmap, 8) + (l + tail)
  {
    hide EncAll, Zeros, Up8, Enc;
    var a, l := Enc(ibmap, 8), if ibmap == 0 then EncAll(bmap, 1) else [];
    var z := Zeros(Up8(|a + l|) - |a + l|);
    tail := z + rest;
    assert a + l + z + rest == a + (l + (z + rest));
  }

  lemma {:induction false} IndicatorRead(c: section, rest: seq<bit>)
    requires c.Bitmap? && Storable(c) && Octets(c) < Pow2(32)
    ensures var s := SectionBits(c) + rest; |s| >= 48 && Dec(s[40..48]) == c.ibmap
  {
    hide SectionBits, EncAll, Octets, Fit, Enc, Dec, Body, IsSection, Pow2;
    var s := SectionBits(c) + rest;
    HeadRead(c, rest);
    var tail := BitmapBody(c.ibmap, c.bmap, rest);
    assert s[40..48] == s[40..][..8] == Enc(c.ibmap, 8);
    DecByte(c.ibmap);
  }

  /** A bit map is read back, except that one of no points is an error. */
  lemma {:induction false} Read6(c: section, rest: seq<bit>)
    requires c.Bitmap? && Storable(c) && Octets(c) < Pow2(32)
    ensures c.ibmap != 0 || c.bmap != [] ==> Unpack6(SectionBits(c) + rest, |c.bmap|) == Got((c.ibmap, c.bmap))
    ensures c.ibmap == 0 && c.bmap == [] ==> Unpack6(SectionBits(c) + rest, 0) == Bad(6)
    ensures c.ibmap != 0 ==> forall n :: Unpack6(SectionBits(c) + rest, n) == Got((c.ibmap, []))
  {
    hide SectionBits, EncAll, DecAll, Octets, Fit, Enc, Dec, Body, IsSection, Pow2;
    var s := SectionBits(c) + rest;
    HeadRead(c, rest);
    var tail := BitmapBody(c.ibmap, c.bmap, rest);
    var a, l := Enc(c.ibmap, 8), if c.ibmap == 0 then EncAll(c.bmap, 1) else [];
    assert s[40..48] == s[40..][..8] == a;
    assert s[48..] == s[40..][8..] == l + tail;
    DecByte(c.ibmap);
    if c.ibmap == 0 { RunRead(c.bmap, 1, tail); }
  }
}
