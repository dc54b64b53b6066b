/** Two messages of the builder that `g2_getfld` does not give back. */
module MessageCases {
  import opened Options
  import opened Shifts
  import opened BitString
  import opened SignMagnitude
  import opened Templates
  import opened SectionFormat
  import opened Sections
  import opened Message
  import opened MessageBuilder
  import opened MessageWalk
  import opened MessageAgreement
  import MessageInfo

  // ----- fields of one point and no data

  ghost function Ident(): (c: section)
    ensures c.Identification?
  {
    Identification(seq(13, _ => 0))
  }

  /** A grid of one point, defined elsewhere. */
  ghost function OnePoint(): (c: section)
    ensures c.GridDefinition?
  {
    GridDefinition([1, 1, 0, 0, 0], [], [])
  }

  ghost function Imagery(): (c: section)
    ensures c.ProductDefinition?
  {
    ProductDefinition(254, [0, 0, 0], [])
  }

  ghost function Simple(): (c: section)
    ensures c.DataRepresentation?
  {
    DataRepresentation(1, 0, [0, 0, 0, 0, 0])
  }

  ghost function FieldOf(b: section): (cs: seq<section>)
    requires b.Bitmap?
  {
    [Imagery(), Simple(), b, Data([])]
  }

  lemma {:induction false} NarrowList(map_: seq<entry>)
    ensures ListWidth(map_) <= 32 * |map_|
  {
    if map_ != [] { NarrowList(map_[1..]); }
  }

  /** Values fit, and the section takes at most a hundred octets. */
  ghost predicate Handy(c: section)
  {
    Storable(c) && Octets(c) <= 100
  }

  lemma {:induction false} ZerosInRange(map_: seq<entry>, vs: seq<int>)
    requires |map_| == |vs| && forall i :: 0 <= i < |vs| ==> vs[i] == 0
    ensures AllInRange(map_, vs)
  {
  }

  lemma {:induction false} HandyIdent()
    ensures Handy(Ident())
  {
    hide ListBits, ListWidth, AllInRange;
    NarrowList(IDENT);
    ZerosInRange(IDENT, Ident().list);
  }

  lemma {:induction false} HandyGrid()
    ensures Handy(OnePoint())
  {
    hide ListBits, ListWidth, Pow2;
    NarrowList(GDS);
    Pow2Small();
    Pow2Adds(8, 8);
    Pow2Exceeds32();
  }

  lemma {:induction false} HandyProduct()
    ensures Handy(Imagery())
  {
    hide ListBits, ListWidth, Pow2;
    assert FullMap(Product, 254, [0, 0, 0]) == [1, 1, 4];
    NarrowList(PDS);
    NarrowList([1, 1, 4]);
    Pow2Small();
    Pow2Adds(8, 8);
  }

  lemma {:induction false} HandyRepresentation()
    ensures Handy(Simple())
  {
    hide ListBits, ListWidth, Pow2;
    assert FullMap(Representation, 0, [0, 0, 0, 0, 0]) == [4, -2, -2, 1, 1];
    NarrowList(DRS);
    NarrowList([4, -2, -2, 1, 1]);
    Pow2Small();
    Pow2Exceeds32();
  }

  lemma {:induction false} HandyMap(b: section)
    requires b.Bitmap? && Storable(b) && |b.bmap| <= 1
    ensures Handy(b)
  {
    EncAllLength(b.bmap, 1);
  }

  lemma {:induction false} HandyData()
    ensures Handy(Data([]))
  {
  }

  ghost predicate AllHandy(cs: seq<section>)
  {
    forall i :: 0 <= i < |cs| ==> Handy(cs[i])
  }

  lemma {:induction false} HandyRun(cs: seq<section>)
    requires AllHandy(cs)
    ensures AllOctets(cs) <= 100 * |cs|
  {
    hide Octets, Formed, Storable;
    if cs != [] { HandyRun(cs[1..]); }
  }

  lemma {:induction false} HandyField(b: section)
    requires b.Bitmap? && Handy(b)
    ensures AllHandy(FieldOf(b))
  {
    hide Handy, Formed, Imagery, Simple;
    HandyProduct();
    HandyRepresentation();
    HandyData();
  }

  // ----- adding a field

  /** n fields over the one point, all of them readable. */
  ghost predicate Fine(m: Msg, n: nat)
  {
    && Ordered(m) && !m.ended
    && LastNumber(m) == (if n == 0 then 3 else 7) && Readable(m.secs, true) && AllHandy(m.secs)
    && LatestGrid(m.secs) == Some(GridRead(OnePoint())) && Sections4(m.secs) == n && |m.secs| == 2 + 4 * n
  }

  ghost function Start(): (m: Msg)
  {
    hide Ident, OnePoint;
    Msg(0, [Ident(), OnePoint()], false)
  }

  ghost function Plus(m: Msg, b: section): (m': Msg)
    requires b.Bitmap?
  {
    hide FieldOf;
    Msg(m.disc, m.secs + FieldOf(b), m.ended)
  }

  lemma {:induction false} StartFine()
    ensures Fine(Start(), 0)
  {
    hide Handy, Formed;
    var c: section, g: section := Ident(), OnePoint();
    HandyIdent();
    HandyGrid();
    HandyFits(c);
    HandyFits(g);
    CountConcat([c], [g]);
    CountOne(c);
    CountOne(g);
    assert Start().secs == [c] + [g];
  }

  lemma {:induction false} PlusFine(m: Msg, n: nat, b: section)
    requires Fine(m, n) && b.Bitmap? && Handy(b) && (b.ibmap == 0 ==> |b.bmap| == 1)
    ensures Fine(Plus(m, b), n + 1)
  {
    hide Formed, Handy, Imagery, Simple, Sections4, LatestGrid, GridRead, Readable;
    var f := FieldOf(b);
    HandyField(b);
    AddedInOrder(m, f);
    PlusReadable(m.secs, f);
    PlusCounts(m.secs, f);
  }

  /** The field that was added, in place. */
  lemma {:induction false} PlusIs(m: Msg, b: section)
    requires b.Bitmap?
    ensures var cs, k := Plus(m, b).secs, |m.secs|;
      FieldAt(cs, k) && cs[k + 2] == b && m.secs <= cs && Sections4(cs[..k + 1]) == Sections4(m.secs) + 1
  {
    hide Formed, Imagery, Simple, Sections4;
    PlusCounts(m.secs, FieldOf(b));
  }

  lemma {:induction false} PlusCounts(cs: seq<section>, f: seq<section>)
    requires FieldAt(f, 0) && |f| == 4
    ensures Sections4(cs + f) == Sections4(cs) + 1 && Sections4((cs + f)[..|cs| + 1]) == Sections4(cs) + 1
  {
    hide Formed, Sections4;
    CountConcat(cs, f);
    CountField(f[0], f[1..]);
    assert f == [f[0]] + f[1..];
    CountConcat(cs, [f[0]]);
    CountOne(f[0]);
    assert (cs + f)[..|cs| + 1] == cs + [f[0]];
  }

  lemma {:induction false} PlusReadable(cs: seq<section>, f: seq<section>)
    requires Readable(cs, true) && LatestGrid(cs) == Some(GridRead(OnePoint())) && FieldAt(f, 0) && |f| == 4
    requires AllHandy(f)
    requires f[2].ibmap == 0 ==> |f[2].bmap| == 1
    ensures Readable(cs + f, true) && LatestGrid(cs + f) == LatestGrid(cs)
  {
    hide Formed, Storable, LatestGrid, Handy;
    var ds, n := cs + f, |cs|;
    assert ds[..n] == cs && ds[..n + 4] == ds && ds[n] == f[0] && ds[n + 1] == f[1] && ds[n + 2] == f[2] &&
      ds[n + 3] == f[3];
    NoGrid(ds, n);
    NoGrid(ds, n + 1);
    NoGrid(ds, n + 2);
    NoGrid(ds, n + 3);
    forall j | 0 <= j < |ds| ensures ReadableAt(ds, true, j) {
      if j < n {
        assert ReadableAt(cs, true, j) && ds[..j] == cs[..j] && ds[j] == cs[j];
      } else {
        HandyFits(f[j - n]);
        assert j == n || j == n + 1 || j == n + 2 || j == n + 3;
      }
    }
  }

  lemma {:induction false} HandyFits(c: section)
    requires Handy(c)
    ensures Storable(c)
  {
    hide Storable, Octets;
  }

  lemma {:induction false} NoGrid(cs: seq<section>, i: nat)
    requires i < |cs| && !cs[i].GridDefinition?
    ensures LatestGrid(cs[..i + 1]) == LatestGrid(cs[..i])
  {
    hide Formed, GridRead;
    assert cs[..i + 1][..i] == cs[..i];
  }

  // ----- the octets of a message

  ghost function ItsOctets(m: Msg): (a: seq<byte>)
  {
    hide MsgBits, Total;
    Gathered(MsgBits(m))
  }

  lemma {:induction false} OctetsStart(m: Msg)
    requires Total(m) < MAXLEN
    ensures Starts(Bits(ItsOctets(m)), m)
  {
    hide MsgBits, Bits, Gathered, Total;
    BitsGathered(MsgBits(m));
    assert MsgBits(m)[..8 * Total(m)] == MsgBits(m);
  }

  lemma {:induction false} FinishedIs(m: Msg, n: nat)
    requires Fine(m, n) && 1 <= n <= 3
    ensures Ordered(Finished(m)) && Total(Finished(m)) < MAXLEN && Readable(m.secs, false)
  {
    hide Formed, LatestGrid, Handy, Storable, AllOctets;
    HandyRun(m.secs);
    forall j | 0 <= j < |m.secs| ensures ReadableAt(m.secs, false, j) { assert ReadableAt(m.secs, true, j); }
  }

  ghost const NO_MAP: section := Bitmap(255, [])
  ghost const NEW_MAP: section := Bitmap(0, [1])
  ghost const OLD_MAP: section := Bitmap(254, [])

  lemma {:induction false} HandyMaps()
    ensures Handy(NO_MAP) && Handy(NEW_MAP) && Handy(OLD_MAP)
  {
    Pow2Small();
    HandyMap(NO_MAP);
    HandyMap(NEW_MAP);
    HandyMap(OLD_MAP);
  }

  /** A field without bit map, then one with. */
  ghost function TwoFields(): (m: Msg)
  {
    hide Plus, Start;
    Finished(Plus(Plus(Start(), NO_MAP), NEW_MAP))
  }

  /** Asked for the second without unpacking, `g2_getfld` returns the indicator of the first. */
  lemma {:induction false} IndicatorLost(unp: Unpacker, expand: bool)
    ensures Ordered(TwoFields()) && FieldAt(TwoFields().secs, 6) && Sections4(TwoFields().secs[..7]) == 2
    ensures TwoFields().secs[8].ibmap == 0
    ensures var o := GetFldOutcome(ItsOctets(TwoFields()), unp, Request(2, false, expand));
      o.Found? && o.rec.ibmap == 255
  {
    hide Formed, Fine, Ordered, Readable, Handy, Sections4, Plus, Start, GetFldOutcome, ItsOctets, Starts, Bits,
         HeaderRecord, Total;
    var m0, m1, m2 := Start(), Plus(Start(), NO_MAP), Plus(Plus(Start(), NO_MAP), NEW_MAP);
    HandyMaps();
    StartFine();
    PlusFine(m0, 0, NO_MAP);
    PlusFine(m1, 1, NEW_MAP);
    PlusIs(m0, NO_MAP);
    PlusIs(m1, NEW_MAP);
    FineCounts(m0, 0);
    FineCounts(m1, 1);
    FinishedIs(m2, 2);
    OctetsStart(TwoFields());
    HeaderIsRead(ItsOctets(TwoFields()), TwoFields(), unp, Request(2, false, expand), 6);
    var j := IndicatorReturned(TwoFields(), 6);
    assert m2.secs[..3] == m1.secs[..3] && m2.secs[2] == m1.secs[2] && m2.secs[4] == m1.secs[4];
    SameField(m2.secs, 2, j);
  }

  /** The message of two fields with four zeros in place of "GRIB" is accepted by `g2_info`. */
  lemma {:induction false} UnmarkedAccepted() returns (a: seq<byte>)
    ensures |a| >= 4 && a[..4] == [0, 0, 0, 0]
    ensures var r := MessageInfo.InfoOf(Bits(a)); r.Accepted? && r.numfields == 2
  {
    hide Fine, Ordered, Handy, Sections4, Plus, Start, ItsOctets, Bits, Total, MsgBits, Storable, MessageInfo.InfoOf,
         NO_MAP, NEW_MAP;
    var m := TwoFields();
    TwoFieldsAre();
    OctetsAre(m);
    var b := ItsOctets(m);
    a := [0, 0, 0, 0] + b[4..];
    BitsConcat([0, 0, 0, 0], b[4..]);
    BitsSlice(b, 4, |b|);
    assert b[4..|b|] == b[4..] && Bits(b)[32..8 * |b|] == MsgBits(m)[32..];
    MessageInfo.UnmarkedIsAccepted(m, Bits([0, 0, 0, 0]));
  }

  lemma {:induction false} OctetsAre(m: Msg)
    ensures Bits(ItsOctets(m)) == MsgBits(m) && |ItsOctets(m)| >= 16
  {
    hide MsgBits, Bits, Gathered, Total;
    BitsGathered(MsgBits(m));
    GatheredLength(MsgBits(m));
    AtLeastSixteen(m);
  }

  lemma {:induction false} AtLeastSixteen(m: Msg)
    ensures Total(m) >= 16
  {
    hide AllOctets;
  }

  lemma {:induction false} GatheredLength(s: seq<bit>)
    requires |s| % 8 == 0
    ensures 8 * |Gathered(s)| == |s|
  {
    hide Dec;
    if s != [] { GatheredLength(s[8..]); }
  }

  lemma {:induction false} TwoFieldsAre()
    ensures var m := TwoFields();
      && Ordered(m) && m.ended && Total(m) < MAXLEN && m.disc == 0 && Storable(m.secs[0]) && Sections4(m.secs) == 2
  {
    hide Formed, Fine, Ordered, Readable, Handy, Sections4, Plus, Start, Total;
    var m0, m1, m2 := Start(), Plus(Start(), NO_MAP), Plus(Plus(Start(), NO_MAP), NEW_MAP);
    HandyMaps();
    StartFine();
    PlusFine(m0, 0, NO_MAP);
    PlusFine(m1, 1, NEW_MAP);
    FineCounts(m2, 2);
    FinishedIs(m2, 2);
    FirstStorable(m2);
    Discipline(m0, NO_MAP);
    Discipline(m1, NEW_MAP);
  }

  lemma {:induction false} FirstStorable(m: Msg)
    requires Fine(m, 2)
    ensures Storable(m.secs[0])
  {
    hide Formed, Storable, LatestGrid, Handy, Sections4, Ordered;
    assert ReadableAt(m.secs, true, 0);
  }

  lemma {:induction false} Discipline(m: Msg, b: section)
    requires b.Bitmap?
    ensures Plus(m, b).disc == m.disc && Start().disc == 0
  {
    hide Formed, Ident, OnePoint, FieldOf;
  }

  lemma {:induction false} SameField(cs: seq<section>, i: nat, j: nat)
    requires i < |cs| && j < |cs| && cs[i].ProductDefinition? && cs[j].ProductDefinition?
    requires Sections4(cs[..i + 1]) == Sections4(cs[..j + 1])
    ensures i == j
  {
    hide Formed, Sections4;
    CountSnoc(cs, i);
    CountSnoc(cs, j);
    if i < j { CountMonotone(cs, i + 1, j); } else if j < i { CountMonotone(cs, j + 1, i); }
  }

  lemma {:induction false} FineCounts(m: Msg, n: nat)
    requires Fine(m, n)
    ensures |m.secs| == 2 + 4 * n && Sections4(m.secs) == n && !m.ended
  {
    hide Formed, LatestGrid, Readable, Handy;
  }

  /** A field with a bit map, one without, and one that asks for the bit map again. */
  ghost function ThreeFields(): (m: Msg)
  {
    hide Plus, Start;
    Finished(Plus(Plus(Plus(Start(), NEW_MAP), NO_MAP), OLD_MAP))
  }

  /** The builder lets the third field follow the other two; `g2_getfld` cannot return it. */
  lemma {:induction false} MapLost(unp: Unpacker, expand: bool)
    ensures Ordered(ThreeFields()) && FieldAt(ThreeFields().secs, 10) && Sections4(ThreeFields().secs[..11]) == 3
    ensures ThreeFields().secs[12].ibmap == 254 && HasBitmap(ThreeFields().secs[..10])
    ensures GetFldOutcome(ItsOctets(ThreeFields()), unp, Request(3, true, expand)) == Error(17)
  {
    hide *;
    ThreeAre();
    ThreeStart();
    FieldParts(ThreeFields().secs, 10);
    Counts(ThreeFields().secs, 10);
    LastHasNone(ThreeFields().secs);
    OldIs();
    DanglingIsTold(ItsOctets(ThreeFields()), ThreeFields(), unp, Request(3, true, expand), 12);
  }

  lemma {:induction false} OldIs()
    ensures OLD_MAP.Bitmap? && OLD_MAP.ibmap == 254
  {
  }

  lemma {:induction false} ThreeAre()
    ensures Fine(Plus(Plus(Plus(Start(), NEW_MAP), NO_MAP), OLD_MAP), 3)
    ensures FieldAt(ThreeFields().secs, 10) && Sections4(ThreeFields().secs[..11]) == 3
    ensures ThreeFields().secs[8] == NO_MAP && !ThreeFields().secs[9].Bitmap? && ThreeFields().secs[12] == OLD_MAP
    ensures HasBitmap(ThreeFields().secs[..10])
  {
    hide Formed, Fine, Handy, Sections4, Plus, Start;
    var m0 := Start();
    var m1 := Plus(m0, NEW_MAP);
    var m2 := Plus(m1, NO_MAP);
    var m3 := Plus(m2, OLD_MAP);
    HandyMaps();
    StartFine();
    PlusFine(m0, 0, NEW_MAP);
    PlusFine(m1, 1, NO_MAP);
    PlusFine(m2, 2, OLD_MAP);
    PlusIs(m0, NEW_MAP);
    PlusIs(m1, NO_MAP);
    PlusIs(m2, OLD_MAP);
    FineCounts(m0, 0);
    FineCounts(m1, 1);
    FineCounts(m2, 2);
    assert m3.secs[..10] == m2.secs && m2.secs[4] == m1.secs[4] == NEW_MAP && m2.secs[8] == NO_MAP &&
      m3.secs[9] == m2.secs[9];
    LowByte();
  }

  lemma {:induction false} ThreeStart()
    ensures Ordered(ThreeFields()) && Readable(ThreeFields().secs, true)
    ensures Starts(Bits(ItsOctets(ThreeFields())), ThreeFields())
  {
    hide Formed, Fine, Ordered, Readable, Plus, Start, ItsOctets, Starts, Bits, Total;
    ThreeAre();
    var m := Plus(Plus(Plus(Start(), NEW_MAP), NO_MAP), OLD_MAP);
    FinishedIs(m, 3);
    OctetsStart(ThreeFields());
    FineReadable(m, 3);
  }

  lemma {:induction false} LowByte()
    ensures Low(0, 8) == 0
  {
    Pow2Small();
    LowIdentity(0, 8);
  }

  lemma {:induction false} LastHasNone(cs: seq<section>)
    requires |cs| >= 13 && cs[8] == NO_MAP && cs[12] == OLD_MAP && FieldAt(cs, 10) && !cs[9].Bitmap?
    ensures Dangling(cs, 12)
  {
    hide Formed;
    var d := cs[..12];
    assert d[8] == NO_MAP && d[9] == cs[9] && d[10] == cs[10] && d[11] == cs[11];
    forall i ensures !InForce(d, i) { }
  }

  lemma {:induction false} FineReadable(m: Msg, n: nat)
    requires Fine(m, n)
    ensures Readable(m.secs, true)
  {
    hide Formed, LatestGrid, Readable, Handy;
  }
}
