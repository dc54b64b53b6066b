/**
 * The tables of the templates against the meaning of their entries: every entry of a section
 * stands at its octet in the form that its quantity calls for, values a quantity may take are
 * storable, and the tails repeat as often as the entry at the right octet says.
 */
module TemplateMeaning {
  import opened Options
  import opened Shifts
  import opened BitString
  import opened SignMagnitude
  import opened Templates
  import opened SectionFormat
  import opened Sections
  import opened TemplateFields
  import Calendar

  // ----- the table of a template

  /** The octet at which the template begins. */
  function Start(kind: Kind): (n: nat)
  {
    match kind
    case Grid => 15
    case Product => 10
    case Representation => 12
  }

  /** Every table lists the entries of its template, but for one latitude of the cross section. */
  lemma {:induction false} TableAgrees(kind: Kind, number: int)
    requires Known(kind, number) && !(kind == Grid && number == 1000)
    ensures Agree(Lookup(kind, number).value.map_, ItemsOf(kind, number), Start(kind), LastOctet(kind, number) + 1)
  {
    hide Agree, GridTemplate, ProductTemplate, RepresentationTemplate, GridItems, ProductItems, DataItems, LastOctet;
    match kind
    case Grid => GridAgrees(number);
    case Product => ProductAgrees(number);
    case Representation => DataAgrees(number);
  }

  // ----- octets

  lemma {:induction false} WidthSnoc(m: seq<entry>, k: nat)
    requires k < |m|
    ensures ListWidth(m[..k + 1]) == ListWidth(m[..k]) + EntryWidth(m[k])
  {
    hide ListWidth, ListBits, EntryWidth;
    assert m[..k + 1] == m[..k] + [m[k]];
    ListConcat(m[..k], [m[k]], seq(k + 1, _ => 0));
    ListCons([m[k]], [0]);
    assert [m[k]][1..] == [];
    ListNil();
  }

  lemma {:induction false} OctetOf(m: seq<entry>, items: seq<Item>, from: nat, to: nat, k: nat)
    requires Agree(m, items, from, to) && k < |items|
    ensures items[k].octet >= from && ListWidth(m[..k]) == 8 * (items[k].octet - from)
    ensures EntryWidth(m[k]) == 8 * Width(items[k].q)
  {
    hide ListWidth;
    assert EntryWidth(m[k]) == 8 * Width(items[k].q) by { hide InStep; }
    if k == 0 {
      assert m[..0] == [];
      ListNil();
    } else {
      OctetOf(m, items, from, to, k - 1);
      WidthSnoc(m, k - 1);
    }
  }

  lemma {:induction false} OctetsOf(m: seq<entry>, items: seq<Item>, from: nat, to: nat)
    requires Agree(m, items, from, to)
    ensures to >= from && ListWidth(m) == 8 * (to - from)
  {
    hide ListWidth, EntryWidth, Width;
    if items == [] {
      ListNil();
      assert m == [];
    } else {
      var k := |m| - 1;
      OctetOf(m, items, from, to, k);
      WidthSnoc(m, k);
      assert m[..k + 1] == m;
    }
  }

  lemma {:induction false} EntryInList(m: seq<entry>, vs: seq<int>, k: nat)
    requires |m| == |vs| && k < |m|
    ensures ListWidth(m[..k]) + EntryWidth(m[k]) <= ListWidth(m)
    ensures ListBits(m, vs)[ListWidth(m[..k])..ListWidth(m[..k]) + EntryWidth(m[k])] == EntryBits(m[k], vs[k])
  {
    hide ListWidth, ListBits, EntryWidth, EntryBits;
    var a, e, b := ListBits(m[..k], vs[..k]), EntryBits(m[k], vs[k]), ListBits(m[k + 1..], vs[k + 1..]);
    assert m == m[..k] + m[k..];
    ListConcat(m[..k], m[k..], vs);
    ListCons(m[k..], vs[k..]);
    assert m[k..][1..] == m[k + 1..] && vs[k..][1..] == vs[k + 1..];
    Inside(a, e, b);
  }

  lemma {:induction false} Inside(a: seq<bit>, e: seq<bit>, b: seq<bit>)
    ensures (a + (e + b))[|a|..|a| + |e|] == e
  {
  }

  // ----- how an entry reads in its octets

  /** Sign and magnitude where the quantity may be negative, and the plain number where it may not. */
  ghost predicate Reads(q: Quantity, f: seq<bit>, v: int)
  {
    if Least(q) < 0 then |f| > 0 && (f[0] == 1 <==> v < 0) && Dec(f[1..]) == Abs(v) else Dec(f) == v
  }

  lemma {:induction false} StoredReads(q: Quantity, v: int)
    requires Least(q) <= v <= Most(q)
    ensures Reads(q, EntryBits(EntryFor(q), v), v)
  {
    HoldsRange(q, v);
    var w: nat := 8 * Width(q);
    assert Pow2(w) == 2 * Pow2(w - 1);
    if EntryFor(q) > 0 {
      hide Pow2, Enc, Dec;
      DecEnc(v, w);
      LowIdentity(v, w);
    } else {
      SignAndMagnitude(v, w);
    }
  }

  lemma {:induction false} SignAndMagnitude(v: int, w: nat)
    requires w >= 1 && Abs(v) < Pow2(w - 1)
    ensures var f := SignedBits(v, w); (f[0] == 1 <==> v < 0) && Dec(f[1..]) == Abs(v)
  {
    hide Dec;
    DecEnc(Abs(v), w - 1);
    LowIdentity(Abs(v), w - 1);
    if v < 0 {
      assert ([1] + Enc(-v, w - 1))[1..] == Enc(-v, w - 1);
    } else {
      ShlIsMul(0, w - 1);
      EncConcat(0, 1, v, w - 1);
      assert Enc(0, 1) == [0];
      assert ([0] + Enc(v, w - 1))[1..] == Enc(v, w - 1);
    }
  }

  // ----- whole sections

  /** The entries of a section's head and template, what they are and their values. */
  ghost function SectionMap(c: section): (m: seq<entry>)
  {
    hide Lookup, Tail;
    match c
    case Identification(_) => IDENT
    case GridDefinition(igds, _, _) => if igds[0] == 0 then GDS + Lookup(Grid, igds[4]).value.map_ else GDS
    case ProductDefinition(pnum, _, _) => PDS + Lookup(Product, pnum).value.map_
    case DataRepresentation(_, dnum, _) => DRS + Lookup(Representation, dnum).value.map_
    case _ => []
  }

  ghost function SectionItems(c: section): (items: seq<Item>)
  {
    hide Lookup, Tail, ItemsOf;
    match c
    case Identification(_) => IDENTIFICATION
    case GridDefinition(igds, _, _) => if igds[0] == 0 then GRID_HEAD + ItemsOf(Grid, igds[4]) else GRID_HEAD
    case ProductDefinition(pnum, _, _) => PRODUCT_HEAD + ItemsOf(Product, pnum)
    case DataRepresentation(_, dnum, _) => DATA_HEAD + ItemsOf(Representation, dnum)
    case _ => []
  }

  ghost function SectionValues(c: section): (vs: seq<int>)
    ensures |vs| == |SectionMap(c)|
  {
    hide Lookup, Tail;
    match c
    case Identification(list) => list
    case GridDefinition(igds, gtmpl, _) =>
      igds[4 := GridNumber(igds)] + if igds[0] == 0 then gtmpl[..|Lookup(Grid, igds[4]).value.map_|] else []
    case ProductDefinition(pnum, ptmpl, coords) => [|coords|, pnum] + ptmpl[..|Lookup(Product, pnum).value.map_|]
    case DataRepresentation(ndpts, dnum, dtmpl) => [ndpts, dnum] + dtmpl[..|Lookup(Representation, dnum).value.map_|]
    case _ => []
  }

  /** The octet after the last of those entries. */
  ghost function SectionEnd(c: section): (n: nat)
  {
    hide Lookup, Tail, LastOctet;
    match c
    case Identification(_) => 22
    case GridDefinition(igds, _, _) => if igds[0] == 0 then LastOctet(Grid, igds[4]) + 1 else 15
    case ProductDefinition(pnum, _, _) => LastOctet(Product, pnum) + 1
    case DataRepresentation(_, dnum, _) => LastOctet(Representation, dnum) + 1
    case _ => 6
  }

  ghost predicate CrossSection(c: section)
  {
    c.GridDefinition? && c.igds[0] == 0 && c.igds[4] == 1000
  }

  lemma {:induction false} SectionAgrees(c: section)
    requires !CrossSection(c)
    ensures Agree(SectionMap(c), SectionItems(c), 6, SectionEnd(c))
  {
    hide Agree, Lookup, Tail, ItemsOf, LastOctet;
    match c
    case Identification(_) => AgreeIdentification();
    case GridDefinition(igds, _, _) =>
      AgreeGridHead();
      if igds[0] == 0 {
        TableAgrees(Grid, igds[4]);
        Join(GDS, GRID_HEAD, Lookup(Grid, igds[4]).value.map_, ItemsOf(Grid, igds[4]), 6, 15, SectionEnd(c));
      }
    case ProductDefinition(pnum, _, _) =>
      AgreeProductHead();
      TableAgrees(Product, pnum);
      Join(PDS, PRODUCT_HEAD, Lookup(Product, pnum).value.map_, ItemsOf(Product, pnum), 6, 10, SectionEnd(c));
    case DataRepresentation(_, dnum, _) =>
      AgreeDataHead();
      TableAgrees(Representation, dnum);
      Join(DRS, DATA_HEAD, Lookup(Representation, dnum).value.map_, ItemsOf(Representation, dnum), 6, 12,
           SectionEnd(c));
    case _ => AgreeNothing();
  }

  lemma {:induction false} AgreeNothing()
    ensures Agree([], [], 6, 6)
  {
  }

  lemma {:induction false} TemplateBegins(kind: Kind, number: int, vs: seq<int>)
    requires Complete(kind, number, vs)
    ensures ListBits(Lookup(kind, number).value.map_, vs[..|Lookup(kind, number).value.map_|])
         <= ListBits(FullMap(kind, number, vs), vs)
  {
    hide Lookup, Tail, ListBits;
    ListConcat(Lookup(kind, number).value.map_, Tail(kind, number, vs), vs);
  }

  lemma {:induction false} HeadAndTemplate(h: seq<entry>, hs: seq<int>, m: seq<entry>, ms: seq<int>, s: seq<bit>)
    requires |h| == |hs| && |m| == |ms| && ListBits(m, ms) <= s
    ensures ListBits(h + m, hs + ms) <= ListBits(h, hs) + s
  {
    hide ListBits;
    ListConcat(h, m, hs + ms);
    assert (hs + ms)[..|h|] == hs && (hs + ms)[|h|..] == ms;
  }

  lemma {:induction false} GridBegins(c: section)
    requires c.GridDefinition?
    ensures ListBits(SectionMap(c), SectionValues(c)) <= Body(c)
  {
    hide Lookup, Tail, ListBits, EncAll, FullMap;
    var igds, gtmpl := c.igds, c.gtmpl;
    var hs := igds[4 := GridNumber(igds)];
    if igds[0] == 0 {
      var m := Lookup(Grid, igds[4]).value.map_;
      TemplateBegins(Grid, igds[4], gtmpl);
      HeadAndTemplate(GDS, hs, m, gtmpl[..|m|], ListBits(FullMap(Grid, igds[4], gtmpl), gtmpl));
    } else {
      assert hs + [] == hs;
    }
  }

  /** A section's body begins with those entries. */
  lemma {:induction false} BodyBegins(c: section)
    ensures ListBits(SectionMap(c), SectionValues(c)) <= Body(c)
  {
    hide Lookup, Tail, ListBits, EncAll, FullMap;
    match c
    case GridDefinition(_, _, _) => GridBegins(c);
    case ProductDefinition(pnum, ptmpl, coords) =>
      var m := Lookup(Product, pnum).value.map_;
      TemplateBegins(Product, pnum, ptmpl);
      HeadAndTemplate(PDS, [|coords|, pnum], m, ptmpl[..|m|], ListBits(FullMap(Product, pnum, ptmpl), ptmpl));
    case DataRepresentation(ndpts, dnum, dtmpl) =>
      var m := Lookup(Representation, dnum).value.map_;
      TemplateBegins(Representation, dnum, dtmpl);
      HeadAndTemplate(DRS, [ndpts, dnum], m, dtmpl[..|m|], ListBits(FullMap(Representation, dnum, dtmpl), dtmpl));
    case _ => ListNil();
  }

  /** Octets o to o + n - 1 of a section. */
  ghost function OctetsAt(c: section, o: nat, n: nat): (s: seq<bit>)
    requires 1 <= o && o + n - 1 <= Octets(c)
  {
    hide SectionBits, Octets;
    SectionBits(c)[8 * (o - 1)..8 * (o - 1 + n)]
  }

  lemma {:induction false} BodyAt(c: section, i: nat, j: nat)
    requires i <= j <= |Body(c)|
    ensures SectionBits(c)[40 + i..40 + j] == Body(c)[i..j]
  {
    hide Body, Octets, Enc;
    var h, b := Enc(Octets(c), 32) + Enc(Number(c), 8), Body(c);
    assert |h| == 40 && (h + b)[40 + i..40 + j] == b[i..j];
  }

  /** Every section begins with its length in four octets, and its number. */
  lemma {:induction false} HeadStands(c: section)
    requires Octets(c) < Pow2(32)
    ensures Dec(OctetsAt(c, 1, 4)) == Octets(c) && Dec(OctetsAt(c, 5, 1)) == Number(c)
  {
    hide Dec, Enc, Octets, Pow2, Body;
    assert SectionBits(c)[0..32] == Enc(Octets(c), 32) && SectionBits(c)[32..40] == Enc(Number(c), 8);
    DecEnc(Octets(c), 32);
    LowIdentity(Octets(c), 32);
    DecByte(Number(c));
  }

  /** Local and packed octets follow as they are. */
  lemma {:induction false} OctetsStand(c: section)
    requires c.Local? || c.Data?
    ensures var b := if c.Local? then c.octets else c.cpack; |b| + 5 == Octets(c) && OctetsAt(c, 6, |b|) == Bits(b)
  {
    hide Bits, SectionBits, Octets;
    var b := if c.Local? then c.octets else c.cpack;
    assert 8 * Octets(c) == 40 + |Body(c)| && |Body(c)| == 8 * |b| by { EncAllLength(b, 8); }
    BodyAt(c, 0, 8 * |b|);
    assert Body(c)[0..8 * |b|] == Bits(b);
  }

  /** The bit map's indicator is octet 6, and its points are one bit each from octet 7 on. */
  lemma {:induction false} MapStands(c: section, j: nat)
    requires c.Bitmap? && 0 <= c.ibmap < 256
    ensures Octets(c) == 6 + (if c.ibmap == 0 then (|c.bmap| + 7) / 8 else 0) && Dec(OctetsAt(c, 6, 1)) == c.ibmap
    ensures c.ibmap == 0 && j < |c.bmap| ==> 48 + j < |SectionBits(c)| && SectionBits(c)[48 + j] == c.bmap[j] % 2
  {
    hide SectionBits, Octets, Enc, Dec, EncAll, Pad8;
    var m := if c.ibmap == 0 then EncAll(c.bmap, 1) else [];
    EncAllLength(c.bmap, 1);
    var b := Enc(c.ibmap, 8) + m;
    Padded(b);
    assert 8 * Octets(c) == 40 + |Body(c)|;
    BodyAt(c, 0, 8);
    assert Body(c)[0..8] == Enc(c.ibmap, 8);
    DecByte(c.ibmap);
    if c.ibmap == 0 && j < |c.bmap| {
      BodyAt(c, 8 + j, 9 + j);
      assert SectionBits(c)[48 + j..49 + j][0] == SectionBits(c)[48 + j] && Body(c)[8 + j..9 + j][0] == m[j];
      BitAt(c.bmap, j);
    }
  }

  lemma {:induction false} Padded(b: seq<bit>)
    ensures b <= Pad8(b) && |Pad8(b)| == (|b| + 7) / 8 * 8
  {
  }

  lemma {:induction false} BitAt(vs: seq<int>, j: nat)
    requires j < |vs|
    ensures |EncAll(vs, 1)| == |vs| && EncAll(vs, 1)[j] == vs[j] % 2
  {
    EncAllLength(vs, 1);
    assert Enc(vs[0], 1) == [vs[0] % 2];
    if j > 0 { BitAt(vs[1..], j - 1); }
  }

  /** Where each entry stands, the cross section included. */
  lemma {:induction false} Placed(c: section, k: nat)
    requires k < |SectionItems(c)|
    ensures |SectionItems(c)| == |SectionMap(c)| && SectionItems(c)[k].octet >= 6
    ensures ListWidth(SectionMap(c)[..k]) == 8 * (SectionItems(c)[k].octet - 6)
    ensures EntryWidth(SectionMap(c)[k]) == 8 * Width(SectionItems(c)[k].q)
    ensures SectionMap(c)[k] == EntryFor(SectionItems(c)[k].q) || (CrossSection(c) && k == 18)
  {
    hide Agree, ListWidth, SectionMap, SectionItems, SectionEnd, EntryWidth, EntryFor, Lookup, Tail;
    if CrossSection(c) {
      CrossPlaced(c, k);
    } else {
      SectionAgrees(c);
      OctetOf(SectionMap(c), SectionItems(c), 6, SectionEnd(c), k);
      Told(SectionMap(c), SectionItems(c), 6, SectionEnd(c), k);
    }
  }

  lemma {:induction false} Told(m: seq<entry>, items: seq<Item>, from: nat, to: nat, k: nat)
    requires Agree(m, items, from, to) && k < |items|
    ensures |m| == |items| && m[k] == EntryFor(items[k].q)
  {
    hide InStep, EntryFor;
  }

  lemma {:induction false} SameWidth(m: seq<entry>, n: seq<entry>)
    requires |m| == |n| && forall i :: 0 <= i < |m| ==> EntryWidth(m[i]) == EntryWidth(n[i])
    ensures ListWidth(m) == ListWidth(n)
  {
    hide EntryWidth;
    if m != [] { SameWidth(m[1..], n[1..]); }
  }

  lemma {:induction false} FourOctetsWide()
    ensures EntryWidth(4) == EntryWidth(-4) == 32
  {
  }

  lemma {:induction false} CrossSize(c: section)
    requires CrossSection(c)
    ensures |SectionItems(c)| == 25
  {
  }

  lemma {:induction false} CrossPlaced(c: section, k: nat)
    requires k < |SectionItems(c)| && CrossSection(c)
    ensures |SectionItems(c)| == |SectionMap(c)| == 25 && SectionItems(c)[k].octet >= 6
    ensures ListWidth(SectionMap(c)[..k]) == 8 * (SectionItems(c)[k].octet - 6)
    ensures EntryWidth(SectionMap(c)[k]) == 8 * Width(SectionItems(c)[k].q)
    ensures SectionMap(c)[k] == if k == 18 then 4 else EntryFor(SectionItems(c)[k].q)
    ensures SectionItems(c)[18] == Item(52, Latitude)
  {
    hide Agree, ListWidth, EntryWidth, EntryFor, GridTemplate, Tail, GridItems;
    GridCrossSection();
    AgreeGridHead();
    var m, items := GridTemplate(1000).value.map_, GridItems(1000);
    Join(GDS, GRID_HEAD, m[13 := -4], items, 6, 15, 67);
    var all := SectionMap(c)[18 := -4];
    assert all == GDS + m[13 := -4];
    OctetOf(all, SectionItems(c), 6, 67, k);
    Told(all, SectionItems(c), 6, 67, k);
    FourOctetsWide();
    SameWidth(SectionMap(c)[..k], all[..k]);
  }

  /**
   * Every entry of a section stands at its octet, and reads there as its value, sign and magnitude
   * where the quantity may be negative.
   */
  lemma {:induction false} EntryStands(c: section, k: nat)
    requires k < |SectionItems(c)| && k < |SectionValues(c)|
    requires var q := SectionItems(c)[k].q; Least(q) <= SectionValues(c)[k] <= Most(q)
    requires !(CrossSection(c) && k == 18)
    ensures var it := SectionItems(c)[k];
            1 <= it.octet && it.octet + Width(it.q) - 1 <= Octets(c) &&
            Reads(it.q, OctetsAt(c, it.octet, Width(it.q)), SectionValues(c)[k])
  {
    hide *;
    var it, v := SectionItems(c)[k], SectionValues(c)[k];
    Placed(c, k);
    Stored(c, k);
    StoredReads(it.q, v);
  }

  /** The bits at an entry's octets are the entry's. */
  lemma {:induction false} Stored(c: section, k: nat)
    requires k < |SectionItems(c)| && k < |SectionValues(c)|
    ensures var it := SectionItems(c)[k];
            6 <= it.octet && it.octet + Width(it.q) - 1 <= Octets(c) &&
            OctetsAt(c, it.octet, Width(it.q)) == EntryBits(SectionMap(c)[k], SectionValues(c)[k])
  {
    hide Agree, ListWidth, SectionMap, SectionItems, SectionEnd, EntryWidth, EntryFor, Lookup, Tail, SectionValues,
         Body, ListBits, EntryBits, Octets, SectionBits, CrossSection, Width;
    var it, m, vs := SectionItems(c)[k], SectionMap(c), SectionValues(c);
    Placed(c, k);
    EntryInList(m, vs, k);
    BodyBegins(c);
    var i, j := 8 * (it.octet - 6), 8 * (it.octet - 6 + Width(it.q));
    assert 8 * Octets(c) == 40 + |Body(c)| && j <= ListWidth(m) <= |Body(c)|;
    BodyAt(c, i, j);
    assert Body(c)[i..j] == ListBits(m, vs)[i..j];
  }

  /** The last latitude of a cross section comes back exactly when it is not south of the equator. */
  lemma {:induction false} LastLatitude(c: section)
    requires CrossSection(c)
    ensures |SectionValues(c)| == 25 && SectionItems(c)[18] == Item(52, Latitude) && 55 <= Octets(c)
    ensures var v, f := SectionValues(c)[18], OctetsAt(c, 52, 4);
            -90000000 <= v <= 90000000 ==>
              Dec(f) == (if v < 0 then v + 4294967296 else v) && (Reads(Latitude, f, v) <==> v >= 0)
  {
    hide Agree, ListWidth, SectionMap, SectionItems, SectionEnd, Lookup, Tail, SectionValues, Octets, SectionBits,
         CrossSection, Enc, Dec, OctetsAt;
    CrossSize(c);
    CrossPlaced(c, 18);
    Stored(c, 18);
    var v := SectionValues(c)[18];
    assert OctetsAt(c, 52, 4) == Enc(v, 32);
    if -90000000 <= v <= 90000000 { Unsigned(v); }
  }

  lemma {:induction false} Unsigned(v: int)
    requires -90000000 <= v <= 90000000
    ensures Dec(Enc(v, 32)) == if v < 0 then v + 4294967296 else v
    ensures Reads(Latitude, Enc(v, 32), v) <==> v >= 0
  {
    Billions();
    hide Pow2, Enc, Dec, Low;
    DecEnc(v, 32);
    if v >= 0 {
      LowIdentity(v, 32);
      SignAndMagnitude(v, 32);
    } else {
      LowIsMod(v, 32);
      DecFirst(Enc(v, 32));
      DecBound(Enc(v, 32)[1..]);
    }
  }

  /** The first bit of a number is its highest. */
  lemma {:induction false} DecFirst(f: seq<bit>)
    requires |f| > 0
    ensures Dec(f) == f[0] * Pow2(|f| - 1) + Dec(f[1..])
  {
    hide Dec, Pow2, Shl;
    assert f == f[..1] + f[1..];
    DecConcat(f[..1], f[1..]);
    ShlIsMul(Dec(f[..1]), |f| - 1);
    OneBit(f[..1]);
  }

  lemma {:induction false} OneBit(s: seq<bit>)
    requires |s| == 1
    ensures Dec(s) == s[0]
  {
    assert s[..0] == [];
  }

  // ----- values that the quantities may take are storable

  ghost predicate Meant(qs: seq<Quantity>, vs: seq<int>)
  {
    hide Least, Most;
    |qs| == |vs| && forall i :: 0 <= i < |qs| ==> Least(qs[i]) <= vs[i] <= Most(qs[i])
  }

  ghost function Quantities(items: seq<Item>): (qs: seq<Quantity>)
    ensures |qs| == |items| && forall i :: 0 <= i < |items| ==> qs[i] == items[i].q
  {
    seq(|items|, i requires 0 <= i < |items| => items[i].q)
  }

  ghost function Entries(qs: seq<Quantity>): (m: seq<entry>)
    ensures |m| == |qs| && forall i :: 0 <= i < |qs| ==> m[i] == EntryFor(qs[i])
  {
    hide EntryFor;
    seq(|qs|, i requires 0 <= i < |qs| => EntryFor(qs[i]))
  }

  lemma {:induction false} MeantInRange(qs: seq<Quantity>, vs: seq<int>)
    requires Meant(qs, vs)
    ensures AllInRange(Entries(qs), vs)
  {
    hide EntryFor, InRange, Least, Most;
    forall i | 0 <= i < |vs| ensures InRange(Entries(qs)[i], vs[i]) { HoldsRange(qs[i], vs[i]); }
  }

  /** Values of head and template that their quantities may take, a cross section's last latitude not negative. */
  ghost predicate Sensible(c: section)
  {
    hide Meant, Quantities, SectionItems, SectionValues, CrossSection;
    && Meant(Quantities(SectionItems(c)), SectionValues(c))
    && (CrossSection(c) ==> |SectionValues(c)| > 18 && SectionValues(c)[18] >= 0)
  }

  lemma {:induction false} SensibleInRange(c: section)
    requires Sensible(c)
    ensures AllInRange(SectionMap(c), SectionValues(c))
  {
    hide SectionMap, SectionItems, SectionValues, CrossSection, InRange, EntryFor, Least, Most, Quantities;
    var m, vs := SectionMap(c), SectionValues(c);
    forall k | 0 <= k < |vs| ensures InRange(m[k], vs[k]) {
      var q := SectionItems(c)[k].q;
      assert Quantities(SectionItems(c))[k] == q;
      Placed(c, k);
      HoldsRange(q, vs[k]);
      if CrossSection(c) && k == 18 {
        CrossPlaced(c, k);
        North(vs[k]);
      }
    }
  }

  lemma {:induction false} North(v: int)
    requires 0 <= v <= Most(Latitude)
    ensures InRange(4, v)
  {
    Billions();
    hide Pow2;
  }

  // ----- tails

  lemma {:induction false} Increasing(items: seq<Item>, from: nat, to: nat, i: nat, j: nat)
    requires InStep(items, from, to) && i < j < |items|
    ensures items[i].octet < items[j].octet
  {
    if i + 1 < j { Increasing(items, from, to, i, j - 1); }
  }

  /** The value of the entry at an octet, 0 if there is none. */
  ghost function CountAt(items: seq<Item>, list: seq<int>, octet: nat): (n: int)
  {
    if exists i :: 0 <= i < |items| && i < |list| && items[i].octet == octet
    then (var i :| 0 <= i < |items| && i < |list| && items[i].octet == octet; list[i])
    else 0
  }

  lemma {:induction false} CountIs(items: seq<Item>, list: seq<int>, k: nat, from: nat, to: nat)
    requires InStep(items, from, to) && k < |items| && k < |list|
    ensures CountAt(items, list, items[k].octet) == list[k]
  {
    hide InStep;
    var o := items[k].octet;
    var i :| 0 <= i < |items| && i < |list| && items[i].octet == o && CountAt(items, list, o) == list[i];
    if i < k { Increasing(items, from, to, i, k); }
    if k < i { Increasing(items, from, to, k, i); }
  }

  /** The quantities n times over. */
  ghost function Copies(qs: seq<Quantity>, n: int): (r: seq<Quantity>)
    decreases n
  {
    if n <= 0 then [] else qs + Copies(qs, n - 1)
  }

  const TIME_RANGE: seq<Quantity> := [Count(1), Count(1), Count(1), Count(4), Count(1), Count(4)]
  const BAND: seq<Quantity> := [Count(2), Count(2), Count(1), Count(1), Count(4)]

  /** Further time ranges, and the members of a cluster; a list without a time range drops one range too many. */
  ghost function RangesAndMembers(ranges: int, members: int): (qs: seq<Quantity>)
  {
    if ranges >= 1 then Copies(TIME_RANGE, ranges - 1) + Copies([Count(1)], members)
    else Copies([Count(1)], members + 6 * (ranges - 1))
  }

  /** What follows the static entries, each count being that at its octet. */
  ghost function TailQuantities(kind: Kind, number: int, list: seq<int>): (qs: seq<Quantity>)
  {
    var items := ItemsOf(kind, number);
    match kind
    case Product =>
      if number == 3 then Copies([Count(1)], CountAt(items, list, 58))
      else if number == 4 then Copies([Count(1)], CountAt(items, list, 54))
      else if 8 <= number <= 12 then Copies(TIME_RANGE, CountAt(items, list, IntervalOctet(number) + 7) - 1)
      else if 13 <= number <= 14 then
        RangesAndMembers(CountAt(items, list, IntervalOctet(number) + 7),
                         CountAt(items, list, if number == 13 then 58 else 54))
      else if number in {30, 31} then Copies(BAND, CountAt(items, list, 14))
      else []
    case Grid =>
      if number == 120 then Copies([Count(2), Signed(2)], CountAt(items, list, 19))
      else if number == 1000 then Copies([Count(4)], CountAt(items, list, 65))
      else if number == 1200 then Copies([Count(4)], CountAt(items, list, 41))
      else []
    case Representation => []
  }

  lemma {:induction false} EntriesConcat(a: seq<Quantity>, b: seq<Quantity>)
    ensures Entries(a + b) == Entries(a) + Entries(b)
  {
    hide EntryFor, Entries;
  }

  lemma {:induction false} CopiesRep(qs: seq<Quantity>, n: int)
    ensures Entries(Copies(qs, n)) == Rep(Entries(qs), n)
    decreases n
  {
    hide EntryFor, Entries;
    if n <= 0 {
      assert Entries([]) == [];
    } else {
      CopiesRep(qs, n - 1);
      EntriesConcat(qs, Copies(qs, n - 1));
    }
  }

  lemma {:induction false} BlockEntries()
    ensures Entries([Count(1)]) == [1] && Entries([Count(4)]) == [4] && Entries([Count(2), Signed(2)]) == [2, -2]
    ensures Entries(TIME_RANGE) == [1, 1, 1, 4, 1, 4] && Entries(BAND) == [2, 2, 1, 1, 4]
  {
    hide Entries;
  }

  /** The tail that the table gives is the one that the counts at their octets ask for. */
  ghost predicate ProductTold(number: int, list: seq<int>)
    requires ProductTemplate(number).Some? && ProductTemplate(number).value.needext
    requires |list| >= |ProductTemplate(number).value.map_|
  {
    hide Entries, TailQuantities, ProductTemplate, ProductTail;
    ProductTail(number, ProductTemplate(number).value.map_, list) == Entries(TailQuantities(Product, number, list))
  }

  lemma {:induction false} ProductCount(number: int, list: seq<int>, k: nat)
    requires ProductTemplate(number).Some? && |list| >= |ProductTemplate(number).value.map_|
    requires k < |ProductItems(number)|
    ensures k < |list| && CountAt(ProductItems(number), list, ProductItems(number)[k].octet) == list[k]
  {
    hide ProductTemplate, ProductItems, InStep, CountAt, Tells;
    ProductAgrees(number);
    assert |ProductItems(number)| == |ProductTemplate(number).value.map_| by {
      assert Tells(ProductTemplate(number).value.map_, ProductItems(number));
      SameSize(ProductTemplate(number).value.map_, ProductItems(number));
    }
    CountIs(ProductItems(number), list, k, 10, LastOctet(Product, number) + 1);
  }

  lemma {:induction false} SameSize(m: seq<entry>, items: seq<Item>)
    requires Tells(m, items)
    ensures |m| == |items|
  {
  }

  lemma {:induction false} LastSix(number: int)
    requires 8 <= number <= 14
    ensures ProductTemplate(number).Some? && ProductTemplate(number).value.needext
    ensures var m := ProductTemplate(number).value.map_; |m| >= 6 && m[|m| - 6..] == [1, 1, 1, 4, 1, 4]
  {
    var m := ProductTemplate(number).value.map_;
    assert INTERVAL[8..] == [1, 1, 1, 4, 1, 4];
    assert m[|m| - 6..] == INTERVAL[8..];
  }

  /** The number of time ranges is seven octets after the end of the interval begins. */
  lemma {:induction false} RangeCount(number: int, list: seq<int>)
    requires 8 <= number <= 14 && ProductTemplate(number).Some? && |list| >= |ProductTemplate(number).value.map_|
    ensures var k := Calendar.EndPosition(number) + 6;
      k < |list| && CountAt(ProductItems(number), list, IntervalOctet(number) + 7) == list[k]
  {
    hide ProductTemplate, ProductItems, CountAt;
    EndItems(number);
    var p := Calendar.EndPosition(number);
    assert ProductItems(number)[p..p + 8][6] == ProductItems(number)[p + 6];
    ProductCount(number, list, p + 6);
  }

  lemma {:induction false} TailRanges(number: int, list: seq<int>)
    requires 8 <= number <= 12 && |list| >= |ProductTemplate(number).value.map_|
    ensures ProductTemplate(number).value.needext && ProductTold(number, list)
  {
    hide Rep, CountAt, Entries, Copies, ProductTemplate, ProductItems;
    BlockEntries();
    LastSix(number);
    RangeCount(number, list);
    CopiesRep(TIME_RANGE, list[Calendar.EndPosition(number) + 6] - 1);
  }

  lemma {:induction false} MembersTold(m: seq<entry>, ranges: int, members: int)
    requires |m| >= 6 && m[|m| - 6..] == [1, 1, 1, 4, 1, 4]
    ensures Members(m, ranges, members) == Entries(RangesAndMembers(ranges, members))
  {
    hide Rep, Entries, Copies;
    BlockEntries();
    if ranges >= 1 {
      CopiesRep(TIME_RANGE, ranges - 1);
      CopiesRep([Count(1)], members);
      EntriesConcat(Copies(TIME_RANGE, ranges - 1), Copies([Count(1)], members));
    } else {
      CopiesRep([Count(1)], members + 6 * (ranges - 1));
    }
  }

  lemma {:induction false} TailMembers(number: int, list: seq<int>)
    requires 13 <= number <= 14 && |list| >= |ProductTemplate(number).value.map_|
    ensures ProductTemplate(number).value.needext && ProductTold(number, list)
  {
    hide CountAt, Entries, ProductTemplate, ProductItems, Members, RangesAndMembers;
    MemberItems(number);
    LastSix(number);
    RangeCount(number, list);
    var k := if number == 13 then 26 else 25;
    ProductCount(number, list, k);
    MembersTold(ProductTemplate(number).value.map_, list[Calendar.EndPosition(number) + 6], list[k]);
  }

  /** The number of members of a cluster. */
  lemma {:induction false} MemberItems(number: int)
    requires number in {3, 4, 13, 14}
    ensures var k := if number in {3, 13} then 26 else 25;
      k < |ProductItems(number)| && ProductItems(number)[k].octet == if number in {3, 13} then 58 else 54
  {
  }

  lemma {:induction false} TailCluster(number: int, list: seq<int>)
    requires number in {3, 4} && |list| >= |ProductTemplate(number).value.map_|
    ensures ProductTemplate(number).value.needext && ProductTold(number, list)
  {
    MemberItems(number);
    hide Rep, CountAt, Entries, Copies, ProductItems;
    BlockEntries();
    var k := if number == 3 then 26 else 25;
    ProductCount(number, list, k);
    CopiesRep([Count(1)], list[k]);
  }

  lemma {:induction false} TailBands(number: int, list: seq<int>)
    requires number in {30, 31} && |list| >= |ProductTemplate(number).value.map_|
    ensures ProductTemplate(number).value.needext && ProductTold(number, list)
  {
    hide Rep, CountAt, Entries, Copies;
    BlockEntries();
    assert ProductItems(number)[4].octet == 14;
    ProductCount(number, list, 4);
    CopiesRep(BAND, list[4]);
  }

  lemma {:induction false} GridCount(number: int, list: seq<int>, k: nat)
    requires GridTemplate(number).Some? && |list| >= |GridTemplate(number).value.map_| && k < |GridItems(number)|
    ensures k < |list| && CountAt(GridItems(number), list, GridItems(number)[k].octet) == list[k]
  {
    hide GridTemplate, GridItems, InStep, CountAt, Tells;
    var m := GridTemplate(number).value.map_;
    if number == 1000 {
      GridCrossSection();
      SameSize(m[13 := -4], GridItems(number));
      CountIs(GridItems(number), list, k, 15, 67);
    } else {
      GridAgrees(number);
      SameSize(m, GridItems(number));
      CountIs(GridItems(number), list, k, 15, LastOctet(Grid, number) + 1);
    }
  }

  lemma {:induction false} TailGrid(number: int, list: seq<int>)
    requires number in {120, 1000, 1200} && |list| >= |GridTemplate(number).value.map_|
    ensures GridTail(number, GridTemplate(number).value.map_, list) == Entries(TailQuantities(Grid, number, list))
  {
    hide Rep, CountAt, Entries, Copies;
    BlockEntries();
    if number == 120 {
      assert GridItems(120)[1].octet == 19;
      GridCount(120, list, 1);
      CopiesRep([Count(2), Signed(2)], list[1]);
    } else if number == 1000 {
      assert GridItems(1000)[19].octet == 65;
      GridCount(1000, list, 19);
      CopiesRep([Count(4)], list[19]);
    } else {
      assert GridItems(1200)[15].octet == 41;
      GridCount(1200, list, 15);
      CopiesRep([Count(4)], list[15]);
    }
  }

  lemma {:induction false} Extended(kind: Kind, number: int)
    requires Known(kind, number)
    ensures Lookup(kind, number).value.needext <==>
      || (kind == Product && number in {3, 4, 8, 9, 10, 11, 12, 13, 14, 30, 31})
      || (kind == Grid && number in {120, 1000, 1200})
  {
  }

  /** Every tail repeats its entries as often as the count at the right octet says. */
  lemma {:induction false} TailTells(kind: Kind, number: int, list: seq<int>)
    requires Known(kind, number) && |list| >= |Lookup(kind, number).value.map_|
    ensures Tail(kind, number, list) == Entries(TailQuantities(kind, number, list))
  {
    hide Entries, ProductTail, GridTail, CountAt, Copies, ItemsOf, RangesAndMembers, GridTemplate, ProductTemplate,
         RepresentationTemplate;
    Extended(kind, number);
    if !Lookup(kind, number).value.needext {
      assert TailQuantities(kind, number, list) == [];
      assert Entries([]) == [];
    } else {
      hide TailQuantities;
      match kind
      case Grid => TailGrid(number, list);
      case Product => TailProduct(number, list);
      case Representation =>
    }
  }

  lemma {:induction false} TailProduct(number: int, list: seq<int>)
    requires number in {3, 4, 8, 9, 10, 11, 12, 13, 14, 30, 31}
    requires ProductTemplate(number).Some? && ProductTemplate(number).value.needext
    requires |list| >= |ProductTemplate(number).value.map_|
    ensures ProductTold(number, list)
  {
    hide ProductTemplate, ProductTold;
    if number in {3, 4} { TailCluster(number, list); }
    else if number <= 12 { TailRanges(number, list); }
    else if number <= 14 { TailMembers(number, list); }
    else { TailBands(number, list); }
  }

  // ----- sections as a whole

  /** The list of a template, and which template it is of. */
  ghost predicate TailSensible(kind: Kind, number: int, vs: seq<int>)
  {
    hide Meant, TailQuantities, Lookup, Tail;
    Complete(kind, number, vs) && Meant(TailQuantities(kind, number, vs), vs[|Lookup(kind, number).value.map_|..])
  }

  /** The values of the tails and of the optional lists. */
  ghost predicate ListsSensible(c: section)
  {
    hide TailSensible, Fit;
    match c
    case GridDefinition(igds, gtmpl, deflist) =>
      && (igds[0] == 0 ==> TailSensible(Grid, igds[4], gtmpl))
      && (if igds[2] == 0 then deflist == [] else deflist != [] && Fit(deflist, 8 * igds[2]))
    case ProductDefinition(pnum, ptmpl, coords) => TailSensible(Product, pnum, ptmpl) && Fit(coords, 32)
    case DataRepresentation(_, dnum, dtmpl) => TailSensible(Representation, dnum, dtmpl)
    case _ => true
  }

  lemma {:induction false} InRangeJoined(m: seq<entry>, n: seq<entry>, vs: seq<int>)
    requires |m| + |n| == |vs| && AllInRange(m, vs[..|m|]) && AllInRange(n, vs[|m|..])
    ensures AllInRange(m + n, vs)
  {
    hide InRange;
    assert forall i :: |m| <= i < |vs| ==> (m + n)[i] == n[i - |m|] && vs[|m|..][i - |m|] == vs[i];
  }

  lemma {:induction false} TemplateInRange(h: seq<entry>, hs: seq<int>, kind: Kind, number: int, vs: seq<int>)
    requires TailSensible(kind, number, vs) && |h| == |hs|
    requires var m := Lookup(kind, number).value.map_; AllInRange(h + m, hs + vs[..|m|])
    ensures AllInRange(h, hs) && AllInRange(FullMap(kind, number, vs), vs)
  {
    hide Lookup, Tail, AllInRange, Entries, Meant, TailQuantities;
    var m := Lookup(kind, number).value.map_;
    InRangeParts(h, m, hs + vs[..|m|]);
    assert (hs + vs[..|m|])[..|h|] == hs && (hs + vs[..|m|])[|h|..] == vs[..|m|];
    TailTells(kind, number, vs);
    MeantInRange(TailQuantities(kind, number, vs), vs[|m|..]);
    InRangeJoined(m, Tail(kind, number, vs), vs);
  }

  /** What the entries of a section may mean can be stored, and so is read back. */
  lemma {:induction false} SensibleStorable(c: section)
    requires Sensible(c) && ListsSensible(c)
    requires c.Identification? || c.GridDefinition? || c.ProductDefinition? || c.DataRepresentation?
    ensures Storable(c)
  {
    hide Lookup, Tail, AllInRange, Sensible, FullMap, TailSensible, Fit;
    SensibleInRange(c);
    match c
    case Identification(_) =>
    case GridDefinition(igds, gtmpl, _) =>
      var hs := igds[4 := GridNumber(igds)];
      if igds[0] == 0 {
        TemplateInRange(GDS, hs, Grid, igds[4], gtmpl);
        GridNumbers(igds[4]);
        GridIsKnown(igds[4]);
      } else {
        assert hs + [] == hs;
      }
    case ProductDefinition(pnum, ptmpl, coords) => TemplateInRange(PDS, [|coords|, pnum], Product, pnum, ptmpl);
    case DataRepresentation(ndpts, dnum, dtmpl) => TemplateInRange(DRS, [ndpts, dnum], Representation, dnum, dtmpl);
  }

  lemma {:induction false} GridIsKnown(number: int)
    ensures Known(Grid, number) <==> GridTemplate(number).Some?
  {
  }

  /** Nothing follows the head and the static entries. */
  ghost predicate Bare(c: section)
  {
    hide Lookup, Tail;
    match c
    case Identification(_) => true
    case GridDefinition(igds, _, _) => igds[2] == 0 && (igds[0] == 0 ==> !Lookup(Grid, igds[4]).value.needext)
    case ProductDefinition(pnum, _, coords) => coords == [] && !Lookup(Product, pnum).value.needext
    case DataRepresentation(_, dnum, _) => !Lookup(Representation, dnum).value.needext
    case _ => false
  }

  lemma {:induction false} NoTail(kind: Kind, number: int, vs: seq<int>)
    requires Complete(kind, number, vs) && !Lookup(kind, number).value.needext
    ensures FullMap(kind, number, vs) == Lookup(kind, number).value.map_ && |vs| == |Lookup(kind, number).value.map_|
  {
    hide Lookup;
  }

  lemma {:induction false} BareBody(c: section)
    requires Bare(c)
    ensures |Body(c)| == ListWidth(SectionMap(c))
  {
    hide Lookup, Tail, ListBits, EncAll, ListWidth, FullMap;
    match c
    case Identification(_) =>
    case GridDefinition(igds, gtmpl, _) =>
      if igds[0] == 0 {
        NoTail(Grid, igds[4], gtmpl);
        ListConcat(GDS, Lookup(Grid, igds[4]).value.map_, igds[4 := GridNumber(igds)] + gtmpl);
      }
    case ProductDefinition(pnum, ptmpl, coords) =>
      NoTail(Product, pnum, ptmpl);
      ListConcat(PDS, Lookup(Product, pnum).value.map_, [|coords|, pnum] + ptmpl);
      EncAllLength(coords, 32);
    case DataRepresentation(ndpts, dnum, dtmpl) =>
      NoTail(Representation, dnum, dtmpl);
      ListConcat(DRS, Lookup(Representation, dnum).value.map_, [ndpts, dnum] + dtmpl);
  }

  /** A section of nothing else has the length that its template is known by. */
  lemma {:induction false} SectionLength(c: section)
    requires Bare(c)
    ensures Octets(c) == SectionEnd(c) - 1
  {
    hide Lookup, Tail, Octets, Body, ListWidth, SectionMap, SectionItems, SectionEnd, Agree;
    BareBody(c);
    NotCross(c);
    SectionAgrees(c);
    OctetsOf(SectionMap(c), SectionItems(c), 6, SectionEnd(c));
    assert 8 * Octets(c) == 40 + |Body(c)|;
  }

  lemma {:induction false} NotCross(c: section)
    requires Bare(c)
    ensures !CrossSection(c)
  {
    hide Tail;
    Extended(Grid, 1000);
  }

  // ----- the times that a forecast is dated by

  /** The octet at which the overall time interval of a template ends. */
  function IntervalOctet(number: int): (o: nat)
    requires 8 <= number <= 14
  {
    match number
    case 8 => 35
    case 9 => 48
    case 10 => 36
    case 11 => 38
    case 12 => 37
    case 13 => 69
    case _ => 65
  }

  /**
   * `gb2_ftim` takes year, month, day, hour and minute from the five entries that begin at that
   * octet, and unit and forecast time from octets 18 and 19.
   */
  lemma {:induction false} EndOfInterval(number: int, vs: seq<int>)
    requires 8 <= number <= 14 && |vs| >= Calendar.EndPosition(number) + 5
    ensures Known(Product, number) && |ProductItems(number)| >= Calendar.EndPosition(number) + 5
    ensures var items, o := ProductItems(number), IntervalOctet(number);
      && items[7] == Item(18, Count(1)) && items[8] == Item(19, Count(4))
      && Calendar.DateAt(vs, Calendar.EndPosition(number)) == Calendar.Date(CountAt(items, vs, o),
         CountAt(items, vs, o + 2), CountAt(items, vs, o + 3), CountAt(items, vs, o + 4), CountAt(items, vs, o + 5))
  {
    hide CountAt, ProductItems, ProductTemplate, Interval;
    ProductNumbers(number);
    EndItems(number);
    var items, p, o := ProductItems(number), Calendar.EndPosition(number), IntervalOctet(number);
    IntervalDate(items, p, o);
    ProductAgrees(number);
    forall k | p <= k < p + 5 ensures CountAt(items, vs, items[k].octet) == vs[k] {
      CountIs(items, vs, k, 10, LastOctet(Product, number) + 1);
    }
    assert CountAt(items, vs, items[p + 1].octet) == vs[p + 1] && CountAt(items, vs, items[p + 2].octet) == vs[p + 2];
    assert CountAt(items, vs, items[p + 3].octet) == vs[p + 3] && CountAt(items, vs, items[p + 4].octet) == vs[p + 4];
  }

  lemma {:induction false} IntervalDate(items: seq<Item>, p: nat, o: nat)
    requires p + 8 <= |items| && items[p..p + 8] == Interval(o)
    ensures items[p].octet == o && items[p + 1].octet == o + 2 && items[p + 2].octet == o + 3
    ensures items[p + 3].octet == o + 4 && items[p + 4].octet == o + 5
  {
    forall k | 0 <= k < 8 ensures items[p + k] == Interval(o)[k] { assert items[p..p + 8][k] == items[p + k]; }
  }

  lemma {:induction false} Spliced(a: seq<Item>, b: seq<Item>, c: seq<Item>)
    ensures (a + (b + c))[|a|..|a| + |b|] == b
  {
  }

  lemma {:induction false} EndItems(number: int)
    requires 8 <= number <= 14
    ensures var items, p := ProductItems(number), Calendar.EndPosition(number);
      && p + 8 <= |items| && items[p..p + 8] == Interval(IntervalOctet(number))
      && items[7] == Item(18, Count(1)) && items[8] == Item(19, Count(4))
  {
    var o := IntervalOctet(number);
    var base := HEADING + LEVELS;
    var a := if number == 8 then base else if number == 9 then base + LIMITS else if number == 10 then base + PERCENTILE
             else if number == 11 then base + MEMBER else if number == 12 then base + DERIVED
             else if number == 13 then base + (CLUSTER + OBLONG) else base + (CLUSTER + ROUND);
    assert |a| == Calendar.EndPosition(number);
    assert a[7] == HEADING[7] && a[8] == HEADING[8];
    assert |Interval(o)| == 8;
    hide Interval, Range;
    assert ProductItems(number) == a + (Interval(o) + Range(o + 12));
    Spliced(a, Interval(o), Range(o + 12));
  }

}
