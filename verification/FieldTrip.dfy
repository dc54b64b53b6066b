/** A field packed, added to a message, the message ended, and the field got back. */
module FieldTrip {
  import opened Options
  import opened Shifts
  import opened BitString
  import opened BitIO
  import opened Ieee
  import opened Templates
  import opened SectionFormat
  import opened Sections
  import opened SectionWalk
  import opened Message
  import opened MessageBuilder
  import opened MessageWalk
  import opened MessageReader
  import opened MessageAgreement
  import opened MessageInfo
  import Cells
  import opened Differencing
  import opened SimplePacking
  import opened PackingRoom
  import opened ComplexPacking
  import opened ComplexScaling
  import opened DataSection
  import opened DataAgreement

  // ----- packing into the buffer that is allocated

  /** The routine, and the missing values that its template names. */
  datatype How = How(p: Packer, missopt: nat, miss1: word, miss2: word)

  ghost predicate Able(pf: seq<real>, how: How)
    requires pf != []
  {
    hide Lowest, Highest, WidthFor, ScaledCells, Packable, Small, Value, Allocated, ConstantField;
    var x := Missing(how.missopt, Value(how.miss1), Value(how.miss2));
    match how.p
    case Simply(nbits, e, d) =>
      var w := WidthFor(Lowest(pf), Highest(pf), nbits, e, d);
      nbits <= 31 && (Lowest(pf) != Highest(pf) && w > 0 ==> |pf| * w + 7 <= 8 * Allocated(|pf|))
    case Complexly(e, d, order) =>
      && order <= 2 && how.missopt <= 2 && (how.missopt == 0 ==> how.miss1 == how.miss2 == 0)
      && (!ConstantField(pf, x) ==>
            Packable(ScaledCells(pf, x, e, d), order, how.missopt) && Small(ScaledCells(pf, x, e, d), order))
  }

  /** The packing of `g2_addfield`. */
  method PackPoints(pf: seq<real>, how: How) returns (tmpl: seq<int>, octets: seq<byte>)
    requires pf != [] && Able(pf, how)
    ensures PackedAs(pf, how.p, NumberFor(how.p), tmpl, octets) && |octets| <= Allocated(|pf|)
  {
    hide Lowest, Highest, WidthFor, ScaledCells, Packable, Small, Value, Allocated, ConstantField, PackedAs, Room;
    var cpack := new byte[Allocated(|pf|)];
    match how.p {
      case Simply(nbits, e, d) =>
        tmpl, octets := PackSimply(pf, nbits, e, d, cpack);
      case Complexly(e, d, order) =>
        ghost var x := Missing(how.missopt, Value(how.miss1), Value(how.miss2));
        if !ConstantField(pf, x) { Enabled(ScaledCells(pf, x, e, d), order, how.missopt); }
        tmpl, octets := PackComplexly(pf, e, d, order, how.missopt, how.miss1, how.miss2, cpack);
    }
  }

  lemma {:induction false} Enabled(cells: seq<Cells.Cell>, order: nat, missopt: nat)
    requires order <= 2 && Packable(cells, order, missopt) && Small(cells, order)
    ensures Room(cells, order, missopt, Allocated(|cells|))
  {
    hide Small, Room, Allocated, Residual, Cells.DataOf;
    AllocatedIsEnough(cells, order, missopt);
  }

  // ----- room for the sections

  lemma {:induction false} WidthAtMost(map_: seq<entry>)
    ensures ListWidth(map_) <= 32 * |map_|
  {
    hide EntryWidth;
    if map_ != [] { WidthAtMost(map_[1..]); }
  }

  /** Octets that a call and the end of the message may take, whatever packing comes to. */
  ghost function RoomNeeded(pnum: int, ptmpl: seq<int>, coords: seq<int>, ibmap: int, bmap: seq<int>, n: nat)
    : (room: nat)
    requires Message.Enough(Product, pnum, ptmpl)
  {
    hide Octets, Allocated, Lookup, Tail;
    (if Known(Product, pnum) then Octets(ProductGiven(pnum, ptmpl, coords)) else 9)
    + Octets(MapGiven(ibmap, bmap)) + Allocated(n) + 92
  }

  ghost function ProductGiven(pnum: int, ptmpl: seq<int>, coords: seq<int>): (c: section)
    requires Known(Product, pnum) && Message.Enough(Product, pnum, ptmpl)
    ensures c == ProductDefinition(pnum, Used(Product, pnum, ptmpl), coords)
  {
    hide Lookup, Tail, Used;
    ProductDefinition(pnum, Used(Product, pnum, ptmpl), coords)
  }

  ghost function MapGiven(ibmap: int, bmap: seq<int>): (c: section)
    ensures c == Bitmap(ibmap, if ibmap == 0 then bmap else [])
  {
    Bitmap(ibmap, if ibmap == 0 then bmap else [])
  }

  /** The number of entries of templates 5.0, 5.2 and 5.3, which have no tail. */
  predicate EntriesFor(dnum: int, tmpl: seq<int>)
  {
    |tmpl| == (if dnum == 0 then 5 else if dnum == 2 then 16 else 18) && dnum in {0, 2, 3}
  }

  lemma {:induction false} EntriesUsed(dnum: int, tmpl: seq<int>)
    requires EntriesFor(dnum, tmpl)
    ensures Known(Representation, dnum) && Message.Enough(Representation, dnum, tmpl)
    ensures Used(Representation, dnum, tmpl) == tmpl
  {
    assert tmpl[..|tmpl|] == tmpl;
  }

  lemma {:induction false} EntriesOf(pf: seq<real>, p: Packer, tmpl: seq<int>, cpack: seq<byte>)
    requires pf != [] && PackedAs(pf, p, NumberFor(p), tmpl, cpack)
    ensures EntriesFor(NumberFor(p), tmpl)
  {
    hide PackedSimply, PackedReals, IsPattern, AllCounts, Bits;
  }

  lemma {:induction false} RepresentationOctets(c: section)
    requires c.DataRepresentation? && EntriesFor(c.dnum, c.dtmpl)
    ensures Octets(c) <= 83
  {
    hide ListBits, ListWidth, FullMap, Lookup, Tail, Body;
    RepresentationBody(c);
    WidthAtMost(DRS);
    DrsWidth();
    WidthAtMost(FullMap(Representation, c.dnum, c.dtmpl));
  }

  lemma {:induction false} DrsWidth()
    ensures ListWidth(DRS) == 48
  {
  }

  lemma {:induction false} RoomIsEnough(call: Call, n: nat)
    requires call.AddField? && Sane(call) && call.packing.Done? && EntriesFor(call.dnum, call.packing.dtmpl)
    requires |call.packing.cpack| <= Allocated(n)
    ensures FieldRoom(call) + 4 <= RoomNeeded(call.pnum, call.ptmpl, call.coords, call.ibmap, call.bmap, n)
  {
    hide Octets, AllOctets, Allocated, Lookup, Tail, ProductContent, FieldContents, Used, Points, Message.Enough;
    EntriesUsed(call.dnum, call.packing.dtmpl);
    FieldContentsAre(call);
    FieldRoomIs(call);
    var cs := FieldContents(call);
    ThreeSections(cs[0], cs[1], cs[2]);
    RepresentationOctets(cs[0]);
    DataIs(cs[2]);
  }

  // ----- there and back

  /** What a message that can be ended looks like, and the room it needs. */
  ghost predicate Endable(cgrib: array<byte>, m: Msg)
    reads cgrib
  {
    hide Built, Storable, Ordered;
    Built(cgrib, m, 4) && !m.ended && m.secs != [] && LastNumber(m) == 7 && 0 <= m.disc < 256 && Storable(m.secs[0])
  }

  /** `g2_gribend`, then `g2_getfld` on the octets of the message. */
  method EndAndGet(cgrib: array<byte>, other: Unpacker, q: Request, ghost m: Msg)
    returns (o: Outcome, ghost a: seq<byte>)
    requires Endable(cgrib, m)
    modifies cgrib
    ensures Stands(cgrib, Finished(m)) && Bits(a) == MsgBits(Finished(m))
    ensures o == GetFldOutcome(a, AnyTemplate(other), q)
  {
    hide Bits, MsgBits, Stands, Total, Ordered, Storable, GetFldOutcome, AnyTemplate, Ends, Checkable,
         SectionWalk.Refused, LooksComplete;
    BuiltReady(cgrib, m, FOR_END, 4);
    var lengrib := AddEnd(cgrib, m);
    ghost var m' := Finished(m);
    EndedIs(m);
    StandsIn(cgrib, m');
    var octets := First(cgrib, lengrib);
    a := octets[..];
    FirstAre(cgrib, m', a);
    FinishedIsAccepted(m');
    AcceptedEnds(a, AnyTemplate(other), q);
    o := GetFld(octets, other, q);
  }

  lemma {:induction false} EndedIs(m: Msg)
    requires Ordered(m) && !m.ended && LastNumber(m) == 7
    ensures After(m, End) == Finished(m) && Returned(m, End) == Total(Finished(m)) && Ordered(Finished(m))
  {
    hide Total, LooksComplete, Follows;
    assert m.secs + [] == m.secs;
    CallKeepsOrder(m, End);
  }

  method First(cgrib: array<byte>, n: nat) returns (octets: array<byte>)
    requires n <= cgrib.Length
    ensures fresh(octets) && octets[..] == cgrib[..n]
  {
    octets := new byte[n](i requires 0 <= i < n && n <= cgrib.Length reads cgrib => cgrib[i]);
  }

  lemma {:induction false} FirstAre(cgrib: array<byte>, m: Msg, a: seq<byte>)
    requires Stands(cgrib, m) && Total(m) <= cgrib.Length && a == cgrib[..Total(m)]
    ensures Bits(a) == MsgBits(m) && Total(m) < MAXLEN && |a| >= 4 && a[0..4] == GRIB
  {
    hide Bits, MsgBits, Total;
    StartsSo(cgrib, m);
    TotalAt(cgrib, m);
    BitsSlice(cgrib[..], 0, Total(m));
    assert a == cgrib[..][0..Total(m)];
    assert a[0..4] == cgrib[..][0..4];
  }

  /** What `g2_getfld` gives of the field just added to m, on the octets of the finished message. */
  lemma {:induction false} JustAdded(a: seq<byte>, other: Unpacker, m: Msg, call: Call, fld: seq<real>, p: Packer,
                                     q: Request, m': Msg)
    returns (out: seq<real>)
    requires Ordered(m) && Given(call, fld, p) && Answer(m, call).Got? && call.dnum in {0, 2, 3}
    requires m' == Finished(After(m, call)) && Ordered(m') && Starts(Bits(a), m') && Readable(m'.secs, true)
    requires q.unpack && q.ifldnum == Sections4(m.secs) + 1
    ensures ComesBack(a, other, m'.secs, |m.secs|, call, fld, p, q, out)
  {
    hide Sane, Ordered, Readable, Starts, FieldGiven, Bits, FieldContents, ProductContent, Lookup, Sections4, Formed,
         Answer, After, ComesBack, AnyTemplate;
    AddedAre(m, call);
    CountSnoc(m'.secs, |m.secs|);
    out := FieldGot(a, other, m', |m.secs|, call, fld, p, q);
  }

  lemma {:induction false} AddedAre(m: Msg, call: Call)
    requires Ordered(m) && call.AddField? && Sane(call) && Answer(m, call).Got?
    ensures Known(Product, call.pnum) && Known(Representation, call.dnum) && call.packing.Done?
    ensures var cs, k := After(m, call).secs, |m.secs|;
      && |cs| == k + 4 && cs[..k] == m.secs && FieldAt(cs, k)
      && cs[k + 1..k + 4] == FieldContents(call) && cs[k] == ProductContent(call)
    ensures After(m, call).disc == m.disc && LastNumber(After(m, call)) == 7 && After(m, call).ended == m.ended
  {
    hide Sane, Follows, LooksComplete, ProductContent, FieldContents, Lookup, Tail, HasBitmap;
    var f := [ProductContent(call)] + FieldContents(call);
    assert f[1..] == FieldContents(call);
    var cs := m.secs + f;
    assert cs[|m.secs|..] == f && cs[..|m.secs|] == m.secs;
  }

  /** The points that a field with such a bit map has. */
  function PointsOfGrid(fld: seq<real>, ibmap: int, bmap: seq<int>): (pf: seq<real>)
    requires ibmap == 0 || ibmap == 254 ==> |bmap| == |fld|
  {
    if ibmap == 0 || ibmap == 254 then Kept(bmap, fld) else fld
  }

  /** The call is for these, and its template and octets are what the packing routine made of the field. */
  ghost predicate CallFor(call: Call, pnum: int, ptmpl: seq<int>, coords: seq<int>, fld: seq<real>, ibmap: int,
                          bmap: seq<int>, p: Packer)
  {
    hide Given;
    && Given(call, fld, p) && call.AddField? && call.pnum == pnum && call.ptmpl == ptmpl && call.coords == coords
    && call.ngrdpts == |fld| && call.ibmap == ibmap && call.bmap == bmap && call.dnum == NumberFor(p)
  }

  /** Refused, and no outcome; or accepted, and the outcome is that of `g2_getfld` and holds the values given. */
  ghost predicate Fetched(m: Msg, call: Call, fld: seq<real>, p: Packer, q: Request, other: Unpacker, a: seq<byte>,
                          ret: int, o: Option<Outcome>, out: seq<real>)
  {
    hide Ordered, Sane, Answer, After, GetFldOutcome, AnyTemplate, Readable, ComesBack, FieldGiven, Lookup;
    && Ordered(m) && Given(call, fld, p) && ret == Returned(m, call) && (o.None? <==> Answer(m, call).Bad?)
    && (o.Some? ==> o.value == GetFldOutcome(a, AnyTemplate(other), q))
    && (o.Some? && Readable(After(m, call).secs, true) ==>
          ComesBack(a, other, After(m, call).secs, |m.secs|, call, fld, p, q, out))
  }

  /** The message that the octets hold in the end. */
  ghost function Left(m: Msg, call: Call, o: Option<Outcome>): (m': Msg)
  {
    hide Ordered, Sane, After;
    if o.Some? && Ordered(m) && Sane(call) then Finished(After(m, call)) else m
  }

  /** A message of the builder with room for the field and the end, asked for its next field. */
  ghost predicate Open(cgrib: array<byte>, m: Msg, room: nat, q: Request)
    reads cgrib
  {
    hide Built, Storable, Sections4;
    && Built(cgrib, m, room) && !m.ended && 0 <= m.disc < 256 && m.secs != [] && Storable(m.secs[0])
    && q.unpack && q.ifldnum == Sections4(m.secs) + 1
  }

  /**
   * Reals are packed, `g2_addfield` adds them to a message of the builder, `g2_gribend` ends it, and
   * `g2_getfld` gets them back: those given, if what was added can be read at all.
   */
  method AddAndGet(cgrib: array<byte>, other: Unpacker, pnum: int, ptmpl: seq<int>, coords: seq<int>, fld: seq<real>,
                   ibmap: int, bmap: seq<int>, how: How, q: Request, ghost m: Msg)
    returns (ret: int, o: Option<Outcome>, ghost call: Call, ghost a: seq<byte>, ghost out: seq<real>)
    requires Message.Enough(Product, pnum, ptmpl) && (ibmap == 0 || ibmap == 254 ==> |bmap| == |fld|)
    requires PointsOfGrid(fld, ibmap, bmap) != [] && Able(PointsOfGrid(fld, ibmap, bmap), how)
    requires Open(cgrib, m, RoomNeeded(pnum, ptmpl, coords, ibmap, bmap, |PointsOfGrid(fld, ibmap, bmap)|), q)
    modifies cgrib
    ensures CallFor(call, pnum, ptmpl, coords, fld, ibmap, bmap, how.p)
    ensures Stands(cgrib, Left(m, call, o)) && Fetched(m, call, fld, how.p, q, other, a, ret, o, out)
  {
    hide Bits, MsgBits, Stands, Total, Storable, GetFldOutcome, AnyTemplate, ComesBack, Checkable, Readable, Sections4,
         SectionWalk.Refused, LooksComplete, Able, RoomNeeded, Kept, Sane, FieldGiven, PackedAs, Answer, Starts,
         FieldRoom, Lookup, Tail, Allocated, Message.Enough, Follows;
    var pf, tmpl, octets;
    if ibmap == 0 || ibmap == 254 {
      var ndpts;
      pf, ndpts := Contract(bmap, fld);
    } else {
      pf := fld;
    }
    tmpl, octets := PackPoints(pf, how);
    call := AddField(pnum, ptmpl, coords, NumberFor(how.p), Done(tmpl, octets), |fld|, ibmap, bmap);
    CallGiven(call, fld, pf, how.p);
    RoomIsEnough(call, |pf|);
    BuiltReady(cgrib, m, FOR_FIELD, FieldRoom(call));
    ret := AddFieldSections(cgrib, pnum, ptmpl, coords, NumberFor(how.p), Done(tmpl, octets), |fld|, ibmap, bmap, m);
    o, a, out := None, [], [];
    ReturnedSign(m, call);
    if ret < 0 { return; }
    AddedAre(m, call);
    CallKeepsOrder(m, call);
    ghost var m1 := After(m, call);
    FieldGrows(m, call);
    var found;
    found, a := EndAndGet(cgrib, other, q, m1);
    o := Some(found);
    if Readable(m1.secs, true) {
      EndedIs(m1);
      StartsThere(a, Finished(m1), cgrib);
      out := JustAdded(a, other, m, call, fld, how.p, q, Finished(m1));
    }
  }

  lemma {:induction false} StartsThere(a: seq<byte>, m: Msg, cgrib: array<byte>)
    requires Bits(a) == MsgBits(m) && Stands(cgrib, m)
    ensures Starts(Bits(a), m)
  {
    hide Bits, MsgBits, Total;
    assert MsgBits(m)[..8 * Total(m)] == MsgBits(m);
  }

  lemma {:induction false} CallGiven(call: Call, fld: seq<real>, pf: seq<real>, p: Packer)
    requires call.AddField? && call.packing.Done? && |fld| == call.ngrdpts && call.dnum == NumberFor(p)
    requires Message.Enough(Product, call.pnum, call.ptmpl)
    requires (call.ibmap == 0 || call.ibmap == 254 ==> |call.bmap| == |fld|)
    requires pf != [] && pf == PointsOfGrid(fld, call.ibmap, call.bmap)
    requires PackedAs(pf, p, call.dnum, call.packing.dtmpl, call.packing.cpack)
    ensures Given(call, fld, p) && EntriesFor(call.dnum, call.packing.dtmpl)
  {
    hide Lookup, Tail, Used, Kept, PackedAs, Message.Enough;
    EntriesOf(pf, p, call.packing.dtmpl, call.packing.cpack);
    EntriesUsed(call.dnum, call.packing.dtmpl);
  }

  /** A call is refused with a negative number, and accepted with the new length. */
  lemma {:induction false} ReturnedSign(m: Msg, call: Call)
    requires Ordered(m) && call.AddField? && Sane(call)
    ensures Returned(m, call) < 0 <==> Answer(m, call).Bad?
  {
    hide Sane, Follows, LooksComplete, ProductContent, FieldContents, Lookup, Tail, HasBitmap, Total;
  }

  lemma {:induction false} FieldGrows(m: Msg, call: Call)
    requires Ordered(m) && !m.ended && call.AddField? && Sane(call) && Answer(m, call).Got?
    ensures Total(After(m, call)) == Total(m) + FieldRoom(call)
  {
    hide Sane, Follows, LooksComplete, ProductContent, FieldContents, Lookup, Tail, HasBitmap, Total, AllOctets, Octets;
    var p, cs := ProductContent(call), FieldContents(call);
    FieldRoomIs(call);
    MessageBuilder.Grown(m, [p] + cs);
    AllConcat([p], cs);
    AllOne(p);
  }
}
