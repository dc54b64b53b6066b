/**
 * What the entries of sections 1, 3, 4 and 5 mean in FM 92 GRIB edition 2, apart from the tables
 * that lay them out: the octet of its section at which each entry stands, and the values it must
 * be able to hold.
 */
module TemplateFields {
  import opened Options
  import opened Shifts
  import opened BitString
  import opened SignMagnitude
  import opened Templates
  import opened SectionFormat
  import S = Sections

  // ----- quantities

  type width = n: nat | 1 <= n <= 4 witness 1

  /** A code, flag or count; a number of either sign; degrees north or east in millionths. */
  datatype Quantity = Count(octets: width) | Signed(octets: width) | Latitude | Longitude

  function Width(q: Quantity): (n: width)
  {
    match q
    case Count(n) => n
    case Signed(n) => n
    case _ => 4
  }

  function Least(q: Quantity): (v: int)
  {
    match q
    case Signed(n) => 1 - Pow2(8 * n - 1)
    case Latitude => -90000000
    case _ => 0
  }

  function Most(q: Quantity): (v: int)
  {
    match q
    case Count(n) => Pow2(8 * n) - 1
    case Signed(n) => Pow2(8 * n - 1) - 1
    case Latitude => 90000000
    case Longitude => 360000000
  }

  /** How a quantity is stored: sign and magnitude where it may be negative. */
  function EntryFor(q: Quantity): (e: entry)
  {
    match q
    case Count(n) => n
    case Signed(n) => -(n as int)
    case Latitude => -4
    case Longitude => 4
  }

  lemma {:induction false} Billions()
    ensures Pow2(31) == 2147483648 && Pow2(32) == 4294967296
  {
    assert Pow2(8) == 256;
    Pow2Adds(8, 8);
    assert Pow2(15) == 32768;
    hide Pow2;
    Pow2Adds(16, 15);
    Pow2Adds(16, 16);
  }

  /** The entry holds every value of its quantity. */
  lemma {:induction false} HoldsRange(q: Quantity, v: int)
    requires Least(q) <= v <= Most(q)
    ensures InRange(EntryFor(q), v) && EntryWidth(EntryFor(q)) == 8 * Width(q)
  {
    Billions();
    hide Pow2;
  }

  /** No other entry of as many octets does, but that longitudes also fit a signed one. */
  lemma {:induction false} HoldsOnly(q: Quantity, e: entry)
    requires EntryWidth(e) == 8 * Width(q)
    ensures (forall v :: Least(q) <= v <= Most(q) ==> InRange(e, v)) <==> e == EntryFor(q) || q.Longitude?
  {
    Billions();
    forall v | Least(q) <= v <= Most(q) ensures InRange(EntryFor(q), v) { HoldsRange(q, v); }
    var n: nat := Width(q);
    assert Pow2(8 * n) == 2 * Pow2(8 * n - 1);
    hide Pow2;
    if e != EntryFor(q) && !q.Longitude? {
      var v := if q.Count? then Most(q) else Least(q);
      assert Least(q) <= v <= Most(q) && !InRange(e, v);
    }
  }

  // ----- items: a quantity and the octet at which it stands

  datatype Item = Item(octet: nat, q: Quantity)

  /** Each item begins where the one before ends, from octet `from` up to octet `to`. */
  ghost predicate InStep(items: seq<Item>, from: nat, to: nat)
  {
    hide Width;
    if items == [] then from == to else
    && items[0].octet == from && items[|items| - 1].octet + Width(items[|items| - 1].q) == to
    && forall i :: 0 < i < |items| ==> items[i].octet == items[i - 1].octet + Width(items[i - 1].q)
  }

  ghost predicate Tells(map_: seq<entry>, items: seq<Item>)
  {
    |map_| == |items| && forall i :: 0 <= i < |items| ==> map_[i] == EntryFor(items[i].q)
  }

  /** The table lists the items, which fill the octets from `from` up to `to`. */
  ghost predicate Agree(map_: seq<entry>, items: seq<Item>, from: nat, to: nat)
  {
    hide InStep, Tells;
    Tells(map_, items) && InStep(items, from, to)
  }

  lemma {:induction false} Join(m: seq<entry>, a: seq<Item>, n: seq<entry>, b: seq<Item>, from: nat, mid: nat, to: nat)
    requires Agree(m, a, from, mid) && Agree(n, b, mid, to)
    ensures Agree(m + n, a + b, from, to)
  {
    hide Width;
    var all := a + b;
    assert Tells(m + n, all) by { hide InStep, EntryFor; }
    if a == [] {
      assert all == b;
    } else if b == [] {
      assert all == a;
    } else {
      assert all[|all| - 1] == b[|b| - 1];
    }
  }

  // ----- the items of the sections

  const IDENTIFICATION := [
    Item(6, Count(2)), Item(8, Count(2)), Item(10, Count(1)), Item(11, Count(1)), Item(12, Count(1)),
    Item(13, Count(2)), Item(15, Count(1)), Item(16, Count(1)), Item(17, Count(1)), Item(18, Count(1)),
    Item(19, Count(1)), Item(20, Count(1)), Item(21, Count(1))]
  const GRID_HEAD := [Item(6, Count(1)), Item(7, Count(4)), Item(11, Count(1)), Item(12, Count(1)), Item(13, Count(2))]
  const PRODUCT_HEAD := [Item(6, Count(2)), Item(8, Count(2))]
  const DATA_HEAD := [Item(6, Count(4)), Item(10, Count(2))]

  // ----- section 4

  /** Category, number, generating process, cut-off and forecast time. */
  const HEADING := [
    Item(10, Count(1)), Item(11, Count(1)), Item(12, Count(1)), Item(13, Count(1)), Item(14, Count(1)),
    Item(15, Count(2)), Item(17, Count(1)), Item(18, Count(1)), Item(19, Count(4))]

  /** Two fixed surfaces: type, scale factor, scaled value. */
  const LEVELS := [
    Item(23, Count(1)), Item(24, Signed(1)), Item(25, Signed(4)),
    Item(29, Count(1)), Item(30, Signed(1)), Item(31, Signed(4))]

  const PERCENTILE := [Item(35, Count(1))]
  const DERIVED := [Item(35, Count(1)), Item(36, Count(1))]
  const MEMBER := [Item(35, Count(1)), Item(36, Count(1)), Item(37, Count(1))]

  /** Probability number, total and type, then the lower and the upper limit. */
  const LIMITS := [
    Item(35, Count(1)), Item(36, Count(1)), Item(37, Count(1)),
    Item(38, Signed(1)), Item(39, Signed(4)), Item(43, Signed(1)), Item(44, Signed(4))]

  const CLUSTER := [
    Item(35, Count(1)), Item(36, Count(1)), Item(37, Count(1)), Item(38, Count(1)), Item(39, Count(1)),
    Item(40, Count(1)), Item(41, Count(1))]

  /** North, south, east and west of the cluster, its members, their spread and distance. */
  const OBLONG := [
    Item(42, Latitude), Item(46, Latitude), Item(50, Longitude), Item(54, Longitude), Item(58, Count(1)),
    Item(59, Signed(1)), Item(60, Count(4)), Item(64, Signed(1)), Item(65, Count(4))]

  /** Centre and radius of the cluster, its members, their spread and distance. */
  const ROUND := [
    Item(42, Latitude), Item(46, Longitude), Item(50, Count(4)), Item(54, Count(1)),
    Item(55, Signed(1)), Item(56, Count(4)), Item(60, Signed(1)), Item(61, Count(4))]

  /** The end of the overall interval, the number of time ranges and of missing values. */
  function Interval(at: nat): (items: seq<Item>)
  {
    [Item(at, Count(2)), Item(at + 2, Count(1)), Item(at + 3, Count(1)), Item(at + 4, Count(1)), Item(at + 5, Count(1)),
     Item(at + 6, Count(1)), Item(at + 7, Count(1)), Item(at + 8, Count(4))]
  }

  /** Statistical process, kind of increment, unit and length of the range, unit and length of the increment. */
  function Range(at: nat): (items: seq<Item>)
  {
    [Item(at, Count(1)), Item(at + 1, Count(1)), Item(at + 2, Count(1)), Item(at + 3, Count(4)), Item(at + 7, Count(1)),
     Item(at + 8, Count(4))]
  }

  /** The process over latitude or longitude that a cross section averages. */
  const AVERAGE := [
    Item(23, Count(1)), Item(24, Count(1)), Item(25, Count(1)), Item(26, Count(4)), Item(30, Count(4)),
    Item(34, Count(2))]

  /** Radar: statistics and site, then the operating mode, the elevations and the processing. */
  const SITE := [
    Item(10, Count(1)), Item(11, Count(1)), Item(12, Count(1)), Item(13, Count(1)), Item(14, Count(1)),
    Item(15, Latitude), Item(19, Longitude), Item(23, Count(2)), Item(25, Count(4)), Item(29, Count(2))]
  const SWEEP := [
    Item(31, Count(1)), Item(32, Count(1)), Item(33, Count(1)), Item(34, Count(1)), Item(35, Count(1)),
    Item(36, Count(2)), Item(38, Count(1)), Item(39, Count(3)), Item(42, Count(2))]

  const SATELLITE := [
    Item(10, Count(1)), Item(11, Count(1)), Item(12, Count(1)), Item(13, Count(1)), Item(14, Count(1))]

  function ProductItems(number: int): (items: seq<Item>)
  {
    var base := HEADING + LEVELS;
    if number in {0, 7, 1100} then base
    else if number in {1, 15} then base + MEMBER
    else if number == 2 then base + DERIVED
    else if number == 3 then base + (CLUSTER + OBLONG)
    else if number == 4 then base + (CLUSTER + ROUND)
    else if number == 5 then base + LIMITS
    else if number == 6 then base + PERCENTILE
    else if number == 8 then base + (Interval(35) + Range(47))
    else if number == 9 then base + LIMITS + (Interval(48) + Range(60))
    else if number == 10 then base + PERCENTILE + (Interval(36) + Range(48))
    else if number == 11 then base + MEMBER + (Interval(38) + Range(50))
    else if number == 12 then base + DERIVED + (Interval(37) + Range(49))
    else if number == 13 then base + (CLUSTER + OBLONG) + (Interval(69) + Range(81))
    else if number == 14 then base + (CLUSTER + ROUND) + (Interval(65) + Range(77))
    else if number == 20 then SITE + SWEEP
    else if number in {30, 31} then SATELLITE
    else if number == 254 then [Item(10, Count(1)), Item(11, Count(1)), Item(12, Count(4))]
    else if number == 1000 then HEADING
    else if number == 1001 then HEADING + ([Item(23, Count(4))] + Range(27))
    else if number == 1002 then HEADING + AVERAGE
    else if number == 1101 then base + ([Item(35, Count(4))] + Range(39))
    else []
  }

  // ----- section 3

  /** Shape of the earth, radius and axes, points along a parallel. */
  const GLOBE := [
    Item(15, Count(1)), Item(16, Count(1)), Item(17, Count(4)), Item(21, Count(1)), Item(22, Count(4)),
    Item(26, Count(1)), Item(27, Count(4)), Item(31, Count(4))]

  /** Points along a meridian, basic angle, first point, flags, last point, increments, scanning mode. */
  const PARALLELS := [
    Item(35, Count(4)), Item(39, Count(4)), Item(43, Count(4)), Item(47, Latitude), Item(51, Longitude),
    Item(55, Count(1)), Item(56, Latitude), Item(60, Longitude), Item(64, Count(4)), Item(68, Count(4)),
    Item(72, Count(1))]

  function Rotated(at: nat): (items: seq<Item>)
  {
    [Item(at, Latitude), Item(at + 4, Longitude), Item(at + 8, Count(4))]
  }

  function Stretched(at: nat): (items: seq<Item>)
  {
    [Item(at, Latitude), Item(at + 4, Longitude), Item(at + 8, Signed(4))]
  }

  const MERCATOR := [
    Item(35, Count(4)), Item(39, Latitude), Item(43, Longitude), Item(47, Count(1)), Item(48, Latitude),
    Item(52, Latitude), Item(56, Longitude), Item(60, Count(1)), Item(61, Count(4)), Item(65, Count(4)),
    Item(69, Count(4))]

  /** First point, flags, true latitude, orientation, increments, projection, scanning mode. */
  const PLANE := [
    Item(35, Count(4)), Item(39, Latitude), Item(43, Longitude), Item(47, Count(1)), Item(48, Latitude),
    Item(52, Longitude), Item(56, Count(4)), Item(60, Count(4)), Item(64, Count(1)), Item(65, Count(1))]

  /** The two latitudes of the secant cone, and the southern pole of projection. */
  const CONE := [Item(66, Latitude), Item(70, Latitude), Item(74, Latitude), Item(78, Longitude)]

  const HARMONICS := [
    Item(15, Count(4)), Item(19, Count(4)), Item(23, Count(4)), Item(27, Count(1)), Item(28, Count(1))]

  /** Space view: the point below the satellite and the size of the disc, then its scanning and its sector. */
  const VIEW := [
    Item(35, Count(4)), Item(39, Latitude), Item(43, Longitude), Item(47, Count(1)), Item(48, Count(4)),
    Item(52, Count(4)), Item(56, Count(4)), Item(60, Count(4))]
  const SECTOR := [Item(64, Count(1)), Item(65, Count(4)), Item(69, Count(4)), Item(73, Count(4)), Item(77, Count(4))]

  const TRIANGULAR := [
    Item(15, Count(1)), Item(16, Count(1)), Item(17, Count(2)), Item(19, Count(1)), Item(20, Latitude),
    Item(24, Longitude), Item(28, Longitude), Item(32, Count(1)), Item(33, Count(1)), Item(34, Count(1)),
    Item(35, Count(4))]

  const AZIMUTHAL := [
    Item(35, Count(4)), Item(39, Latitude), Item(43, Longitude), Item(47, Count(1)), Item(48, Count(4)),
    Item(52, Count(4)), Item(56, Count(1)), Item(57, Count(1))]

  /** Bins along a radial, radials, centre, spacing and offset of the bins, scanning mode. */
  const RADIALS := [
    Item(15, Count(4)), Item(19, Count(4)), Item(23, Latitude), Item(27, Longitude), Item(31, Count(4)),
    Item(35, Count(4)), Item(39, Count(1))]

  /** Basic angle, first and last point. */
  const ENDS := [
    Item(35, Count(4)), Item(39, Count(4)), Item(43, Latitude), Item(47, Longitude), Item(51, Count(1)),
    Item(52, Latitude), Item(56, Longitude), Item(60, Count(1))]

  const CROSS_SECTION := [Item(61, Count(2)), Item(63, Count(1)), Item(64, Count(1)), Item(65, Count(2))]

  /** Number of times, offset from the reference time, increment, date and time of the last step. */
  function Times(at: nat): (items: seq<Item>)
  {
    [Item(at, Count(4)), Item(at + 4, Count(1)), Item(at + 5, Signed(4)), Item(at + 9, Count(1)),
     Item(at + 10, Count(1)), Item(at + 11, Signed(4)), Item(at + 15, Count(2)), Item(at + 17, Count(1)),
     Item(at + 18, Count(1)), Item(at + 19, Count(1)), Item(at + 20, Count(1)), Item(at + 21, Count(1))]
  }

  const LEVELS_LISTED := [Item(37, Count(2)), Item(39, Count(1)), Item(40, Count(1)), Item(41, Count(2))]

  function GridItems(number: int): (items: seq<Item>)
  {
    var latlon := GLOBE + PARALLELS;
    if number in {0, 40, 204, 32768} then latlon
    else if number in {1, 41} then latlon + Rotated(73)
    else if number in {2, 42} then latlon + Stretched(73)
    else if number in {3, 43} then latlon + (Rotated(73) + Stretched(85))
    else if number == 10 then GLOBE + MERCATOR
    else if number == 20 then GLOBE + PLANE
    else if number in {30, 31} then GLOBE + (PLANE + CONE)
    else if number == 50 then HARMONICS
    else if number == 51 then HARMONICS + Rotated(29)
    else if number == 52 then HARMONICS + Stretched(29)
    else if number == 53 then HARMONICS + (Rotated(29) + Stretched(41))
    else if number == 90 then GLOBE + (VIEW + SECTOR)
    else if number == 100 then TRIANGULAR
    else if number == 110 then GLOBE + AZIMUTHAL
    else if number == 120 then RADIALS
    else if number == 1000 then GLOBE + (ENDS + CROSS_SECTION)
    else if number == 1100 then GLOBE + (ENDS + Times(61))
    else if number == 1200 then Times(15) + LEVELS_LISTED
    else []
  }

  // ----- section 5

  /** Reference value, binary and decimal scale factor, bits. */
  const SCALES := [Item(12, Count(4)), Item(16, Signed(2)), Item(18, Signed(2)), Item(20, Count(1))]

  const GROUPS := [
    Item(21, Count(1)), Item(22, Count(1)), Item(23, Count(1)), Item(24, Count(4)), Item(28, Count(4)),
    Item(32, Count(4)), Item(36, Count(1)), Item(37, Count(1)), Item(38, Count(4)), Item(42, Count(1)),
    Item(43, Count(4)), Item(47, Count(1))]

  const DIFFERENCES := [Item(48, Count(1)), Item(49, Count(1))]

  const LAPLACIAN := [
    Item(21, Signed(4)), Item(25, Count(2)), Item(27, Count(2)), Item(29, Count(2)), Item(31, Count(4)),
    Item(35, Count(1))]

  function DataItems(number: int): (items: seq<Item>)
  {
    if number in {0, 41, 40010} then SCALES + [Item(21, Count(1))]
    else if number == 2 then SCALES + GROUPS
    else if number == 3 then SCALES + (GROUPS + DIFFERENCES)
    else if number == 50 then SCALES + [Item(21, Count(4))]
    else if number == 51 then SCALES + LAPLACIAN
    else if number in {40, 40000} then SCALES + [Item(21, Count(1)), Item(22, Count(1)), Item(23, Count(1))]
    else []
  }

  function ItemsOf(kind: Kind, number: int): (items: seq<Item>)
  {
    match kind
    case Grid => GridItems(number)
    case Product => ProductItems(number)
    case Representation => DataItems(number)
  }

  /** Octets of a section without a tail or optional lists. */
  function LastOctet(kind: Kind, number: int): (n: nat)
  {
    match kind
    case Product =>
      if number in {0, 7, 1100} then 34 else if number in {1, 15} then 37 else if number == 2 then 36
      else if number == 3 then 68 else if number == 4 then 64 else if number == 5 then 47 else if number == 6 then 35
      else if number == 8 then 58 else if number == 9 then 71 else if number == 10 then 59 else if number == 11 then 61
      else if number == 12 then 60 else if number == 13 then 92 else if number == 14 then 88
      else if number == 20 then 43 else if number in {30, 31} then 14 else if number == 254 then 15
      else if number == 1000 then 22 else if number == 1001 then 38 else if number == 1002 then 35 else 50
    case Grid =>
      if number in {0, 10, 40, 204, 32768} then 72 else if number in {1, 2, 41, 42} then 84
      else if number in {3, 43} then 96 else if number == 20 then 65 else if number in {30, 31} then 81
      else if number == 50 then 28 else if number in {51, 52} then 40 else if number == 53 then 52
      else if number == 90 then 80 else if number == 100 then 38 else if number == 110 then 57
      else if number == 120 then 39 else if number == 1000 then 66 else if number == 1100 then 82 else 42
    case Representation =>
      if number == 2 then 47 else if number == 3 then 49 else if number == 50 then 24 else if number == 51 then 35
      else if number in {40, 40000} then 23 else 21
  }

  lemma {:induction false} AgreeIdentification()
    ensures Agree(S.IDENT, IDENTIFICATION, 6, 22)
  {
    assert Tells(S.IDENT, IDENTIFICATION) by { hide InStep, Width; }
    assert InStep(IDENTIFICATION, 6, 22) by { hide Tells, EntryFor; }
  }

  lemma {:induction false} AgreeGridHead()
    ensures Agree(S.GDS, GRID_HEAD, 6, 15)
  {
    assert Tells(S.GDS, GRID_HEAD) by { hide InStep, Width; }
    assert InStep(GRID_HEAD, 6, 15) by { hide Tells, EntryFor; }
  }

  lemma {:induction false} AgreeProductHead()
    ensures Agree(S.PDS, PRODUCT_HEAD, 6, 10)
  {
    assert Tells(S.PDS, PRODUCT_HEAD) by { hide InStep, Width; }
    assert InStep(PRODUCT_HEAD, 6, 10) by { hide Tells, EntryFor; }
  }

  lemma {:induction false} AgreeDataHead()
    ensures Agree(S.DRS, DATA_HEAD, 6, 12)
  {
    assert Tells(S.DRS, DATA_HEAD) by { hide InStep, Width; }
    assert InStep(DATA_HEAD, 6, 12) by { hide Tells, EntryFor; }
  }

  lemma {:induction false} AgreeHeading()
    ensures Agree(FRONT, HEADING, 10, 23)
  {
    assert Tells(FRONT, HEADING) by { hide InStep, Width; }
    assert InStep(HEADING, 10, 23) by { hide Tells, EntryFor; }
  }

  lemma {:induction false} AgreeLevels()
    ensures Agree(SURFACES, LEVELS, 23, 35)
  {
    assert Tells(SURFACES, LEVELS) by { hide InStep, Width; }
    assert InStep(LEVELS, 23, 35) by { hide Tells, EntryFor; }
  }

  lemma {:induction false} AgreeMember()
    ensures Agree([1, 1, 1], MEMBER, 35, 38)
  {
    assert Tells([1, 1, 1], MEMBER) by { hide InStep, Width; }
    assert InStep(MEMBER, 35, 38) by { hide Tells, EntryFor; }
  }

  lemma {:induction false} AgreeLimits()
    ensures Agree(PROBABILITY, LIMITS, 35, 48)
  {
    assert Tells(PROBABILITY, LIMITS) by { hide InStep, Width; }
    assert InStep(LIMITS, 35, 48) by { hide Tells, EntryFor; }
  }

  lemma {:induction false} AgreeCluster()
    ensures Agree([1, 1, 1, 1, 1, 1, 1], CLUSTER, 35, 42)
  {
    assert Tells([1, 1, 1, 1, 1, 1, 1], CLUSTER) by { hide InStep, Width; }
    assert InStep(CLUSTER, 35, 42) by { hide Tells, EntryFor; }
  }

  lemma {:induction false} AgreeArea()
    ensures Agree([-4, -4, 4, 4, 1, -1, 4, -1, 4], OBLONG, 42, 69)
  {
    assert Tells([-4, -4, 4, 4, 1, -1, 4, -1, 4], OBLONG) by { hide InStep, Width; }
    assert InStep(OBLONG, 42, 69) by { hide Tells, EntryFor; }
  }

  lemma {:induction false} AgreeOblong()
    ensures Agree(RECTANGLE, CLUSTER + OBLONG, 35, 69)
  {
    hide Agree;
    AgreeCluster();
    AgreeArea();
    Join([1, 1, 1, 1, 1, 1, 1], CLUSTER, [-4, -4, 4, 4, 1, -1, 4, -1, 4], OBLONG, 35, 42, 69);
    assert RECTANGLE ==
      [1, 1, 1, 1, 1, 1, 1] + [-4, -4, 4, 4, 1, -1, 4, -1, 4];
  }

  lemma {:induction false} AgreeDisc()
    ensures Agree([-4, 4, 4, 1, -1, 4, -1, 4], ROUND, 42, 65)
  {
    assert Tells([-4, 4, 4, 1, -1, 4, -1, 4], ROUND) by { hide InStep, Width; }
    assert InStep(ROUND, 42, 65) by { hide Tells, EntryFor; }
  }

  lemma {:induction false} AgreeRound()
    ensures Agree(CIRCLE, CLUSTER + ROUND, 35, 65)
  {
    hide Agree;
    AgreeCluster();
    AgreeDisc();
    Join([1, 1, 1, 1, 1, 1, 1], CLUSTER, [-4, 4, 4, 1, -1, 4, -1, 4], ROUND, 35, 42, 65);
    assert CIRCLE ==
      [1, 1, 1, 1, 1, 1, 1] + [-4, 4, 4, 1, -1, 4, -1, 4];
  }

  lemma {:induction false} AgreeSite()
    ensures Agree([1, 1, 1, 1, 1, -4, 4, 2, 4, 2], SITE, 10, 31)
  {
    assert Tells([1, 1, 1, 1, 1, -4, 4, 2, 4, 2], SITE) by { hide InStep, Width; }
    assert InStep(SITE, 10, 31) by { hide Tells, EntryFor; }
  }

  lemma {:induction false} AgreeSweep()
    ensures Agree([1, 1, 1, 1, 1, 2, 1, 3, 2], SWEEP, 31, 44)
  {
    assert Tells([1, 1, 1, 1, 1, 2, 1, 3, 2], SWEEP) by { hide InStep, Width; }
    assert InStep(SWEEP, 31, 44) by { hide Tells, EntryFor; }
  }

  lemma {:induction false} AgreeRadar()
    ensures Agree([1, 1, 1, 1, 1, -4, 4, 2, 4, 2, 1, 1, 1, 1, 1, 2, 1, 3, 2], SITE + SWEEP, 10, 44)
  {
    hide Agree;
    AgreeSite();
    AgreeSweep();
    Join([1, 1, 1, 1, 1, -4, 4, 2, 4, 2], SITE, [1, 1, 1, 1, 1, 2, 1, 3, 2], SWEEP, 10, 31, 44);
    assert [1, 1, 1, 1, 1, -4, 4, 2, 4, 2, 1, 1, 1, 1, 1, 2, 1, 3, 2] ==
      [1, 1, 1, 1, 1, -4, 4, 2, 4, 2] + [1, 1, 1, 1, 1, 2, 1, 3, 2];
  }

  lemma {:induction false} AgreeGlobe()
    ensures Agree(EARTH, GLOBE, 15, 35)
  {
    assert Tells(EARTH, GLOBE) by { hide InStep, Width; }
    assert InStep(GLOBE, 15, 35) by { hide Tells, EntryFor; }
  }

  lemma {:induction false} AgreeParallels()
    ensures Agree([4, 4, 4, -4, 4, 1, -4, 4, 4, 4, 1], PARALLELS, 35, 73)
  {
    assert Tells([4, 4, 4, -4, 4, 1, -4, 4, 4, 4, 1], PARALLELS) by { hide InStep, Width; }
    assert InStep(PARALLELS, 35, 73) by { hide Tells, EntryFor; }
  }

  lemma {:induction false} AgreeMercator()
    ensures Agree([4, -4, 4, 1, -4, -4, 4, 1, 4, 4, 4], MERCATOR, 35, 73)
  {
    assert Tells([4, -4, 4, 1, -4, -4, 4, 1, 4, 4, 4], MERCATOR) by { hide InStep, Width; }
    assert InStep(MERCATOR, 35, 73) by { hide Tells, EntryFor; }
  }

  lemma {:induction false} AgreePlane()
    ensures Agree([4, -4, 4, 1, -4, 4, 4, 4, 1, 1], PLANE, 35, 66)
  {
    assert Tells([4, -4, 4, 1, -4, 4, 4, 4, 1, 1], PLANE) by { hide InStep, Width; }
    assert InStep(PLANE, 35, 66) by { hide Tells, EntryFor; }
  }

  lemma {:induction false} AgreeCone()
    ensures Agree([-4, -4, -4, 4], CONE, 66, 82)
  {
    assert Tells([-4, -4, -4, 4], CONE) by { hide InStep, Width; }
    assert InStep(CONE, 66, 82) by { hide Tells, EntryFor; }
  }

  lemma {:induction false} AgreeView()
    ensures Agree([4, -4, 4, 1, 4, 4, 4, 4], VIEW, 35, 64)
  {
    assert Tells([4, -4, 4, 1, 4, 4, 4, 4], VIEW) by { hide InStep, Width; }
    assert InStep(VIEW, 35, 64) by { hide Tells, EntryFor; }
  }

  lemma {:induction false} AgreeSector()
    ensures Agree([1, 4, 4, 4, 4], SECTOR, 64, 81)
  {
    assert Tells([1, 4, 4, 4, 4], SECTOR) by { hide InStep, Width; }
    assert InStep(SECTOR, 64, 81) by { hide Tells, EntryFor; }
  }

  lemma {:induction false} AgreeSpaceView()
    ensures Agree([4, -4, 4, 1, 4, 4, 4, 4, 1, 4, 4, 4, 4], VIEW + SECTOR, 35, 81)
  {
    hide Agree;
    AgreeView();
    AgreeSector();
    Join([4, -4, 4, 1, 4, 4, 4, 4], VIEW, [1, 4, 4, 4, 4], SECTOR, 35, 64, 81);
    assert [4, -4, 4, 1, 4, 4, 4, 4, 1, 4, 4, 4, 4] ==
      [4, -4, 4, 1, 4, 4, 4, 4] + [1, 4, 4, 4, 4];
  }

  lemma {:induction false} AgreeTriangular()
    ensures Agree([1, 1, 2, 1, -4, 4, 4, 1, 1, 1, 4], TRIANGULAR, 15, 39)
  {
    assert Tells([1, 1, 2, 1, -4, 4, 4, 1, 1, 1, 4], TRIANGULAR) by { hide InStep, Width; }
    assert InStep(TRIANGULAR, 15, 39) by { hide Tells, EntryFor; }
  }

  lemma {:induction false} AgreeScales()
    ensures Agree([4, -2, -2, 1], SCALES, 12, 21)
  {
    assert Tells([4, -2, -2, 1], SCALES) by { hide InStep, Width; }
    assert InStep(SCALES, 12, 21) by { hide Tells, EntryFor; }
  }

  lemma {:induction false} AgreeGroups()
    ensures Agree([1, 1, 1, 4, 4, 4, 1, 1, 4, 1, 4, 1], GROUPS, 21, 48)
  {
    assert Tells([1, 1, 1, 4, 4, 4, 1, 1, 4, 1, 4, 1], GROUPS) by { hide InStep, Width; }
    assert InStep(GROUPS, 21, 48) by { hide Tells, EntryFor; }
  }

  lemma {:induction false} AgreeTimes(at: nat)
    ensures Agree([4, 1, -4, 1, 1, -4, 2, 1, 1, 1, 1, 1], Times(at), at, at + 22)
  {
    assert Tells([4, 1, -4, 1, 1, -4, 2, 1, 1, 1, 1, 1], Times(at)) by { hide InStep, Width; }
    assert InStep(Times(at), at, at + 22) by { hide Tells, EntryFor; }
  }

  lemma {:induction false} AgreeEndOfInterval(at: nat)
    ensures Agree([2, 1, 1, 1, 1, 1, 1, 4], Interval(at), at, at + 12)
  {
    assert Tells([2, 1, 1, 1, 1, 1, 1, 4], Interval(at)) by { hide InStep, Width; }
    assert InStep(Interval(at), at, at + 12) by { hide Tells, EntryFor; }
  }

  lemma {:induction false} AgreeRange(at: nat)
    ensures Agree([1, 1, 1, 4, 1, 4], Range(at), at, at + 12)
  {
    assert Tells([1, 1, 1, 4, 1, 4], Range(at)) by { hide InStep, Width; }
    assert InStep(Range(at), at, at + 12) by { hide Tells, EntryFor; }
  }

  lemma {:induction false} AgreeInterval(at: nat)
    ensures Agree(INTERVAL, Interval(at) + Range(at + 12), at, at + 24)
  {
    hide Agree, Interval, Range;
    AgreeEndOfInterval(at);
    AgreeRange(at + 12);
    Join([2, 1, 1, 1, 1, 1, 1, 4], Interval(at), [1, 1, 1, 4, 1, 4], Range(at + 12), at, at + 12, at + 24);
    assert INTERVAL == [2, 1, 1, 1, 1, 1, 1, 4] + [1, 1, 1, 4, 1, 4];
  }

  lemma {:induction false} AgreeProcess(at: nat)
    ensures Agree(PROCESS, [Item(at, Count(4))] + Range(at + 4), at, at + 16)
  {
    AgreeRange(at + 4);
    assert Agree([4], [Item(at, Count(4))], at, at + 4);
    hide Agree, Range;
    Join([4], [Item(at, Count(4))], [1, 1, 1, 4, 1, 4], Range(at + 4), at, at + 4, at + 16);
    assert PROCESS == [4] + [1, 1, 1, 4, 1, 4];
  }

  lemma {:induction false} AgreeRotated(at: nat)
    ensures Agree([-4, 4, 4], Rotated(at), at, at + 12)
  {
  }

  lemma {:induction false} AgreeStretched(at: nat)
    ensures Agree([-4, 4, -4], Stretched(at), at, at + 12)
  {
  }

  lemma {:induction false} AgreeBoth(at: nat)
    ensures Agree([-4, 4, 4, -4, 4, -4], Rotated(at) + Stretched(at + 12), at, at + 24)
  {
    hide Agree, Rotated, Stretched;
    AgreeRotated(at);
    AgreeStretched(at + 12);
    Join([-4, 4, 4], Rotated(at), [-4, 4, -4], Stretched(at + 12), at, at + 12, at + 24);
    assert [-4, 4, 4, -4, 4, -4] == [-4, 4, 4] + [-4, 4, -4];
  }

  lemma {:induction false} AgreeBase()
    ensures Agree(FRONT + SURFACES, HEADING + LEVELS, 10, 35)
  {
    hide Agree;
    AgreeHeading();
    AgreeLevels();
    Join(FRONT, HEADING, SURFACES, LEVELS, 10, 23, 35);
  }

  lemma {:induction false} AgreeDerived()
    ensures Agree([1, 1], DERIVED, 35, 37)
  {
  }

  lemma {:induction false} AgreePercentile()
    ensures Agree([1], PERCENTILE, 35, 36)
  {
  }

  lemma {:induction false} AgreeSatellite()
    ensures Agree([1, 1, 1, 1, 1], SATELLITE, 10, 15)
  {
  }

  // ----- the items of the templates

  /** There is such a template, and its table lists its items up to octet `to`. */
  ghost predicate ProductIs(number: int, to: nat)
  {
    hide Agree;
    ProductTemplate(number).Some? && Agree(ProductTemplate(number).value.map_, ProductItems(number), 10, to)
  }

  ghost predicate GridIs(number: int, to: nat)
  {
    hide Agree;
    GridTemplate(number).Some? && Agree(GridTemplate(number).value.map_, GridItems(number), 15, to)
  }

  ghost predicate DataIs(number: int, to: nat)
  {
    hide Agree;
    && RepresentationTemplate(number).Some?
    && Agree(RepresentationTemplate(number).value.map_, DataItems(number), 12, to)
  }

  lemma {:induction false} ProductMember(number: int)
    requires number in {1, 15}
    ensures ProductIs(number, 38)
  {
    hide Agree, Interval, Range, Rotated, Stretched, Times;
    AgreeBase();
    AgreeMember();
    Join(FRONT + SURFACES, HEADING + LEVELS, [1, 1, 1], MEMBER, 10, 35, 38);
  }

  lemma {:induction false} ProductDerived(number: int)
    requires number == 2
    ensures ProductIs(number, 37)
  {
    hide Agree, Interval, Range, Rotated, Stretched, Times;
    AgreeBase();
    AgreeDerived();
    Join(FRONT + SURFACES, HEADING + LEVELS, [1, 1], DERIVED, 10, 35, 37);
  }

  lemma {:induction false} ProductRectangle(number: int)
    requires number == 3
    ensures ProductIs(number, 69)
  {
    hide Agree, Interval, Range, Rotated, Stretched, Times;
    AgreeBase();
    AgreeOblong();
    Join(FRONT + SURFACES, HEADING + LEVELS, RECTANGLE, CLUSTER + OBLONG, 10, 35, 69);
  }

  lemma {:induction false} ProductCircle(number: int)
    requires number == 4
    ensures ProductIs(number, 65)
  {
    hide Agree, Interval, Range, Rotated, Stretched, Times;
    AgreeBase();
    AgreeRound();
    Join(FRONT + SURFACES, HEADING + LEVELS, CIRCLE, CLUSTER + ROUND, 10, 35, 65);
  }

  lemma {:induction false} ProductProbability(number: int)
    requires number == 5
    ensures ProductIs(number, 48)
  {
    hide Agree, Interval, Range, Rotated, Stretched, Times;
    AgreeBase();
    AgreeLimits();
    Join(FRONT + SURFACES, HEADING + LEVELS, PROBABILITY, LIMITS, 10, 35, 48);
  }

  lemma {:induction false} ProductPercentile(number: int)
    requires number == 6
    ensures ProductIs(number, 36)
  {
    hide Agree, Interval, Range, Rotated, Stretched, Times;
    AgreeBase();
    AgreePercentile();
    Join(FRONT + SURFACES, HEADING + LEVELS, [1], PERCENTILE, 10, 35, 36);
  }

  lemma {:induction false} ProductInterval(number: int)
    requires number == 8
    ensures ProductIs(number, 59)
  {
    hide Agree, Interval, Range, Rotated, Stretched, Times;
    AgreeBase();
    AgreeInterval(35);
    Join(FRONT + SURFACES, HEADING + LEVELS, INTERVAL, Interval(35) + Range(47), 10, 35, 59);
  }

  lemma {:induction false} ProductHovmoller(number: int)
    requires number == 1101
    ensures ProductIs(number, 51)
  {
    hide Agree, Interval, Range, Rotated, Stretched, Times;
    AgreeBase();
    AgreeProcess(35);
    Join(FRONT + SURFACES, HEADING + LEVELS, PROCESS, [Item(35, Count(4))] + Range(39), 10, 35, 51);
  }

  lemma {:induction false} ProductProbabilityInterval(number: int)
    requires number == 9
    ensures ProductIs(number, 72)
  {
    hide Agree, Interval, Range;
    AgreeBase();
    AgreeLimits();
    AgreeInterval(48);
    Join(FRONT + SURFACES, HEADING + LEVELS, PROBABILITY, LIMITS, 10, 35, 48);
    Join(FRONT + SURFACES + PROBABILITY, HEADING + LEVELS + LIMITS, INTERVAL, Interval(48) + Range(60), 10, 48, 72);
  }

  lemma {:induction false} ProductPercentileInterval(number: int)
    requires number == 10
    ensures ProductIs(number, 60)
  {
    hide Agree, Interval, Range;
    AgreeBase();
    AgreePercentile();
    AgreeInterval(36);
    Join(FRONT + SURFACES, HEADING + LEVELS, [1], PERCENTILE, 10, 35, 36);
    Join(FRONT + SURFACES + [1], HEADING + LEVELS + PERCENTILE, INTERVAL, Interval(36) + Range(48), 10, 36, 60);
  }

  lemma {:induction false} ProductMemberInterval(number: int)
    requires number == 11
    ensures ProductIs(number, 62)
  {
    hide Agree, Interval, Range;
    AgreeBase();
    AgreeMember();
    AgreeInterval(38);
    Join(FRONT + SURFACES, HEADING + LEVELS, [1, 1, 1], MEMBER, 10, 35, 38);
    Join(FRONT + SURFACES + [1, 1, 1], HEADING + LEVELS + MEMBER, INTERVAL, Interval(38) + Range(50), 10, 38, 62);
  }

  lemma {:induction false} ProductDerivedInterval(number: int)
    requires number == 12
    ensures ProductIs(number, 61)
  {
    hide Agree, Interval, Range;
    AgreeBase();
    AgreeDerived();
    AgreeInterval(37);
    Join(FRONT + SURFACES, HEADING + LEVELS, [1, 1], DERIVED, 10, 35, 37);
    Join(FRONT + SURFACES + [1, 1], HEADING + LEVELS + DERIVED, INTERVAL, Interval(37) + Range(49), 10, 37, 61);
  }

  lemma {:induction false} ProductRectangleInterval(number: int)
    requires number == 13
    ensures ProductIs(number, 93)
  {
    hide Agree, Interval, Range;
    AgreeBase();
    AgreeOblong();
    AgreeInterval(69);
    Join(FRONT + SURFACES, HEADING + LEVELS, RECTANGLE, (CLUSTER + OBLONG), 10, 35, 69);
    Join(FRONT + SURFACES + RECTANGLE, HEADING + LEVELS + (CLUSTER + OBLONG), INTERVAL, Interval(69) + Range(81),
         10, 69, 93);
  }

  lemma {:induction false} ProductCircleInterval(number: int)
    requires number == 14
    ensures ProductIs(number, 89)
  {
    hide Agree, Interval, Range;
    AgreeBase();
    AgreeRound();
    AgreeInterval(65);
    Join(FRONT + SURFACES, HEADING + LEVELS, CIRCLE, (CLUSTER + ROUND), 10, 35, 65);
    Join(FRONT + SURFACES + CIRCLE, HEADING + LEVELS + (CLUSTER + ROUND), INTERVAL, Interval(65) + Range(77),
         10, 65, 89);
  }

  lemma {:induction false} ProductCrossProcess(number: int)
    requires number == 1001
    ensures ProductIs(number, 39)
  {
    hide Agree, Interval, Range, Rotated, Stretched, Times;
    AgreeHeading();
    AgreeProcess(23);
    Join(FRONT, HEADING, PROCESS, [Item(23, Count(4))] + Range(27), 10, 23, 39);
  }

  lemma {:induction false} AgreeAverage()
    ensures Agree([1, 1, 1, 4, 4, 2], AVERAGE, 23, 36)
  {
    assert Tells([1, 1, 1, 4, 4, 2], AVERAGE) by { hide InStep, Width; }
    assert InStep(AVERAGE, 23, 36) by { hide Tells, EntryFor; }
  }

  lemma {:induction false} ProductCrossAverage(number: int)
    requires number == 1002
    ensures ProductIs(number, 36)
  {
    hide Agree, Interval, Range, Rotated, Stretched, Times;
    AgreeHeading();
    AgreeAverage();
    Join(FRONT, HEADING, [1, 1, 1, 4, 4, 2], AVERAGE, 10, 23, 36);
  }

  lemma {:induction false} ProductPlain(number: int)
    requires number in {0, 7, 20, 30, 31, 254, 1000, 1100}
    ensures ProductIs(number, LastOctet(Product, number) + 1)
  {
    AgreeText();
    hide Agree;
    AgreeBase();
    AgreeRadar();
    AgreeSatellite();
    AgreeHeading();
  }

  lemma {:induction false} AgreeText()
    ensures Agree([1, 1, 4], [Item(10, Count(1)), Item(11, Count(1)), Item(12, Count(4))], 10, 16)
  {
  }

  lemma {:induction false} ProductAgrees(number: int)
    requires ProductTemplate(number).Some?
    ensures ProductIs(number, LastOctet(Product, number) + 1)
  {
    hide Agree, ProductItems, ProductTemplate;
    ProductNumbers(number);
    if number in {0, 7, 20, 30, 31, 254, 1000, 1100} { ProductPlain(number); }
    else if number in {1, 15} { ProductMember(number); }
    else if number == 2 { ProductDerived(number); }
    else if number == 3 { ProductRectangle(number); }
    else if number == 4 { ProductCircle(number); }
    else if number == 5 { ProductProbability(number); }
    else if number == 6 { ProductPercentile(number); }
    else if number == 8 { ProductInterval(number); }
    else if number == 9 { ProductProbabilityInterval(number); }
    else if number == 10 { ProductPercentileInterval(number); }
    else if number == 11 { ProductMemberInterval(number); }
    else if number == 12 { ProductDerivedInterval(number); }
    else if number == 13 { ProductRectangleInterval(number); }
    else if number == 14 { ProductCircleInterval(number); }
    else if number == 1001 { ProductCrossProcess(number); }
    else if number == 1002 { ProductCrossAverage(number); }
    else { ProductHovmoller(number); }
  }

  lemma {:induction false} ProductNumbers(number: int)
    ensures ProductTemplate(number).Some? <==>
      number in {0, 1, 2, 3, 4, 5, 6, 7, 8, 9, 10, 11, 12, 13, 14, 15, 20, 30, 31, 254, 1000, 1001, 1002, 1100, 1101}
  {
  }

  lemma {:induction false} AgreeLatLon()
    ensures Agree(LATLON, GLOBE + PARALLELS, 15, 73)
  {
    hide Agree;
    AgreeGlobe();
    AgreeParallels();
    Join(EARTH, GLOBE, [4, 4, 4, -4, 4, 1, -4, 4, 4, 4, 1], PARALLELS, 15, 35, 73);
  }

  lemma {:induction false} AgreeHarmonics()
    ensures Agree([4, 4, 4, 1, 1], HARMONICS, 15, 29)
  {
  }

  lemma {:induction false} AgreeAzimuthal()
    ensures Agree([4, -4, 4, 1, 4, 4, 1, 1], AZIMUTHAL, 35, 58)
  {
    assert Tells([4, -4, 4, 1, 4, 4, 1, 1], AZIMUTHAL) by { hide InStep, Width; }
    assert InStep(AZIMUTHAL, 35, 58) by { hide Tells, EntryFor; }
  }

  lemma {:induction false} AgreeRadials()
    ensures Agree([4, 4, -4, 4, 4, 4, 1], RADIALS, 15, 40)
  {
    assert Tells([4, 4, -4, 4, 4, 4, 1], RADIALS) by { hide InStep, Width; }
    assert InStep(RADIALS, 15, 40) by { hide Tells, EntryFor; }
  }

  lemma {:induction false} AgreeEnds()
    ensures Agree([4, 4, -4, 4, 1, -4, 4, 1], ENDS, 35, 61)
  {
    assert Tells([4, 4, -4, 4, 1, -4, 4, 1], ENDS) by { hide InStep, Width; }
    assert InStep(ENDS, 35, 61) by { hide Tells, EntryFor; }
  }

  lemma {:induction false} AgreeListed()
    ensures Agree([2, 1, 1, 2], LEVELS_LISTED, 37, 43)
  {
    assert Tells([2, 1, 1, 2], LEVELS_LISTED) by { hide InStep, Width; }
    assert InStep(LEVELS_LISTED, 37, 43) by { hide Tells, EntryFor; }
  }

  lemma {:induction false} AgreeCrossSection()
    ensures Agree([2, 1, 1, 2], CROSS_SECTION, 61, 67)
  {
    assert Tells([2, 1, 1, 2], CROSS_SECTION) by { hide InStep, Width; }
    assert InStep(CROSS_SECTION, 61, 67) by { hide Tells, EntryFor; }
  }

  lemma {:induction false} AgreeConic()
    ensures Agree(CONIC, GLOBE + (PLANE + CONE), 15, 82)
  {
    hide Agree;
    AgreeGlobe();
    AgreePlane();
    AgreeCone();
    Join([4, -4, 4, 1, -4, 4, 4, 4, 1, 1], PLANE, [-4, -4, -4, 4], CONE, 35, 66, 82);
    assert [4, -4, 4, 1, -4, 4, 4, 4, 1, 1] + [-4, -4, -4, 4] == [4, -4, 4, 1, -4, 4, 4, 4, 1, 1, -4, -4, -4, 4];
    Join(EARTH, GLOBE, [4, -4, 4, 1, -4, 4, 4, 4, 1, 1, -4, -4, -4, 4], PLANE + CONE, 15, 35, 82);
  }

  lemma {:induction false} GridRotated(number: int)
    requires number in {1, 41}
    ensures GridIs(number, 85)
  {
    hide Agree, Interval, Range, Rotated, Stretched, Times;
    AgreeLatLon();
    AgreeRotated(73);
    Join(LATLON, GLOBE + PARALLELS, [-4, 4, 4], Rotated(73), 15, 73, 85);
  }

  lemma {:induction false} GridStretched(number: int)
    requires number in {2, 42}
    ensures GridIs(number, 85)
  {
    hide Agree, Interval, Range, Rotated, Stretched, Times;
    AgreeLatLon();
    AgreeStretched(73);
    Join(LATLON, GLOBE + PARALLELS, [-4, 4, -4], Stretched(73), 15, 73, 85);
  }

  lemma {:induction false} GridBoth(number: int)
    requires number in {3, 43}
    ensures GridIs(number, 97)
  {
    hide Agree, Interval, Range, Rotated, Stretched, Times;
    AgreeLatLon();
    AgreeBoth(73);
    Join(LATLON, GLOBE + PARALLELS, [-4, 4, 4, -4, 4, -4], Rotated(73) + Stretched(85), 15, 73, 97);
  }

  lemma {:induction false} GridMercator(number: int)
    requires number == 10
    ensures GridIs(number, 73)
  {
    hide Agree, Interval, Range, Rotated, Stretched, Times;
    AgreeGlobe();
    AgreeMercator();
    Join(EARTH, GLOBE, [4, -4, 4, 1, -4, -4, 4, 1, 4, 4, 4], MERCATOR, 15, 35, 73);
  }

  lemma {:induction false} GridPolar(number: int)
    requires number == 20
    ensures GridIs(number, 66)
  {
    hide Agree, Interval, Range, Rotated, Stretched, Times;
    AgreeGlobe();
    AgreePlane();
    Join(EARTH, GLOBE, [4, -4, 4, 1, -4, 4, 4, 4, 1, 1], PLANE, 15, 35, 66);
  }

  lemma {:induction false} GridSpaceView(number: int)
    requires number == 90
    ensures GridIs(number, 81)
  {
    hide Agree, Interval, Range, Rotated, Stretched, Times;
    AgreeGlobe();
    AgreeSpaceView();
    Join(EARTH, GLOBE, [4, -4, 4, 1, 4, 4, 4, 4, 1, 4, 4, 4, 4], VIEW + SECTOR, 15, 35, 81);
  }

  lemma {:induction false} GridAzimuthal(number: int)
    requires number == 110
    ensures GridIs(number, 58)
  {
    hide Agree, Interval, Range, Rotated, Stretched, Times;
    AgreeGlobe();
    AgreeAzimuthal();
    Join(EARTH, GLOBE, [4, -4, 4, 1, 4, 4, 1, 1], AZIMUTHAL, 15, 35, 58);
  }

  lemma {:induction false} GridRotatedHarmonics(number: int)
    requires number == 51
    ensures GridIs(number, 41)
  {
    hide Agree, Rotated, Stretched, Times;
    AgreeHarmonics();
    AgreeRotated(29);
    Join([4, 4, 4, 1, 1], HARMONICS, [-4, 4, 4], Rotated(29), 15, 29, 41);
    assert [4, 4, 4, 1, 1] + [-4, 4, 4] == GridTemplate(number).value.map_;
  }

  lemma {:induction false} GridStretchedHarmonics(number: int)
    requires number == 52
    ensures GridIs(number, 41)
  {
    hide Agree, Rotated, Stretched, Times;
    AgreeHarmonics();
    AgreeStretched(29);
    Join([4, 4, 4, 1, 1], HARMONICS, [-4, 4, -4], Stretched(29), 15, 29, 41);
    assert [4, 4, 4, 1, 1] + [-4, 4, -4] == GridTemplate(number).value.map_;
  }

  lemma {:induction false} GridBothHarmonics(number: int)
    requires number == 53
    ensures GridIs(number, 53)
  {
    hide Agree, Rotated, Stretched, Times;
    AgreeHarmonics();
    AgreeBoth(29);
    Join([4, 4, 4, 1, 1], HARMONICS, [-4, 4, 4, -4, 4, -4], Rotated(29) + Stretched(41), 15, 29, 53);
    assert [4, 4, 4, 1, 1] + [-4, 4, 4, -4, 4, -4] == GridTemplate(number).value.map_;
  }

  lemma {:induction false} GridHovmoller(number: int)
    requires number == 1100
    ensures GridIs(number, 83)
  {
    hide Agree, Times;
    AgreeGlobe();
    AgreeEnds();
    AgreeTimes(61);
    Join([4, 4, -4, 4, 1, -4, 4, 1], ENDS, [4, 1, -4, 1, 1, -4, 2, 1, 1, 1, 1, 1], Times(61), 35, 61, 83);
    var m := [4, 4, -4, 4, 1, -4, 4, 1] + [4, 1, -4, 1, 1, -4, 2, 1, 1, 1, 1, 1];
    Join(EARTH, GLOBE, m, ENDS + Times(61), 15, 35, 83);
    assert GridTemplate(number).value.map_ == EARTH + m;
  }

  lemma {:induction false} GridTimeSection(number: int)
    requires number == 1200
    ensures GridIs(number, 43)
  {
    hide Agree, Times;
    AgreeTimes(15);
    AgreeListed();
    Join([4, 1, -4, 1, 1, -4, 2, 1, 1, 1, 1, 1], Times(15), [2, 1, 1, 2], LEVELS_LISTED, 15, 37, 43);
    assert GridTemplate(number).value.map_ == [4, 1, -4, 1, 1, -4, 2, 1, 1, 1, 1, 1] + [2, 1, 1, 2];
  }

  /** The cross section: its table has the latitude of the last point unsigned. */
  lemma {:induction false} GridCrossSection()
    ensures GridTemplate(1000).Some? && |GridTemplate(1000).value.map_| == 20
    ensures GridItems(1000)[13] == Item(52, Latitude)
    ensures GridTemplate(1000).value.map_[13] == 4
    ensures Agree(GridTemplate(1000).value.map_[13 := -4], GridItems(1000), 15, 67)
  {
    hide Agree;
    AgreeGlobe();
    AgreeEnds();
    AgreeCrossSection();
    Join([4, 4, -4, 4, 1, -4, 4, 1], ENDS, [2, 1, 1, 2], CROSS_SECTION, 35, 61, 67);
    Join(EARTH, GLOBE, [4, 4, -4, 4, 1, -4, 4, 1] + [2, 1, 1, 2], ENDS + CROSS_SECTION, 15, 35, 67);
    assert GridTemplate(1000).value.map_[13 := -4] == EARTH + ([4, 4, -4, 4, 1, -4, 4, 1] + [2, 1, 1, 2]);
  }

  lemma {:induction false} GridPlain(number: int)
    requires number in {0, 30, 31, 40, 50, 100, 120, 204, 32768}
    ensures GridIs(number, LastOctet(Grid, number) + 1)
  {
    hide Agree;
    AgreeLatLon();
    AgreeConic();
    AgreeHarmonics();
    AgreeTriangular();
    AgreeRadials();
  }

  lemma {:induction false} GridAgrees(number: int)
    requires GridTemplate(number).Some? && number != 1000
    ensures GridIs(number, LastOctet(Grid, number) + 1)
  {
    hide Agree, GridItems, GridTemplate;
    GridNumbers(number);
    if number in {0, 30, 31, 40, 50, 100, 120, 204, 32768} { GridPlain(number); }
    else if number in {1, 41} { GridRotated(number); }
    else if number in {2, 42} { GridStretched(number); }
    else if number in {3, 43} { GridBoth(number); }
    else if number == 10 { GridMercator(number); }
    else if number == 20 { GridPolar(number); }
    else if number == 51 { GridRotatedHarmonics(number); }
    else if number == 52 { GridStretchedHarmonics(number); }
    else if number == 53 { GridBothHarmonics(number); }
    else if number == 90 { GridSpaceView(number); }
    else if number == 110 { GridAzimuthal(number); }
    else if number == 1100 { GridHovmoller(number); }
    else { GridTimeSection(number); }
  }

  lemma {:induction false} GridNumbers(number: int)
    ensures GridTemplate(number).Some? <==>
      number in {0, 1, 2, 3, 10, 20, 30, 31, 40, 41, 42, 43, 50, 51, 52, 53, 90, 100, 110, 120, 204, 1000, 1100, 1200,
                 32768}
  {
  }

  lemma {:induction false} DataSimple(number: int)
    requires number in {0, 41, 40010}
    ensures DataIs(number, 22)
  {
    assert Agree([1], [Item(21, Count(1))], 21, 22);
    hide Agree;
    AgreeScales();
    Join([4, -2, -2, 1], SCALES, [1], [Item(21, Count(1))], 12, 21, 22);
    assert RepresentationTemplate(number).value.map_ == [4, -2, -2, 1] + [1];
  }

  lemma {:induction false} DataGroups(number: int)
    requires number == 2
    ensures DataIs(number, 48)
  {
    AgreeGroups();
    hide Agree;
    AgreeScales();
    Join([4, -2, -2, 1], SCALES, [1, 1, 1, 4, 4, 4, 1, 1, 4, 1, 4, 1], GROUPS, 12, 21, 48);
    assert RepresentationTemplate(number).value.map_ == [4, -2, -2, 1] + [1, 1, 1, 4, 4, 4, 1, 1, 4, 1, 4, 1];
  }

  lemma {:induction false} AgreeDifferences()
    ensures Agree([1, 1, 1, 4, 4, 4, 1, 1, 4, 1, 4, 1] + [1, 1], GROUPS + DIFFERENCES, 21, 50)
  {
    assert Agree([1, 1], DIFFERENCES, 48, 50);
    hide Agree;
    AgreeGroups();
    Join([1, 1, 1, 4, 4, 4, 1, 1, 4, 1, 4, 1], GROUPS, [1, 1], DIFFERENCES, 21, 48, 50);
  }

  lemma {:induction false} DataDifferences(number: int)
    requires number == 3
    ensures DataIs(number, 50)
  {
    AgreeDifferences();
    hide Agree;
    AgreeScales();
    Join([4, -2, -2, 1], SCALES, ([1, 1, 1, 4, 4, 4, 1, 1, 4, 1, 4, 1] + [1, 1]), GROUPS + DIFFERENCES, 12, 21, 50);
    assert RepresentationTemplate(number).value.map_ ==
      [4, -2, -2, 1] + ([1, 1, 1, 4, 4, 4, 1, 1, 4, 1, 4, 1] + [1, 1]);
  }

  lemma {:induction false} DataSpectral(number: int)
    requires number == 50
    ensures DataIs(number, 25)
  {
    assert Agree([4], [Item(21, Count(4))], 21, 25);
    hide Agree;
    AgreeScales();
    Join([4, -2, -2, 1], SCALES, [4], [Item(21, Count(4))], 12, 21, 25);
    assert RepresentationTemplate(number).value.map_ == [4, -2, -2, 1] + [4];
  }

  lemma {:induction false} DataLaplacian(number: int)
    requires number == 51
    ensures DataIs(number, 36)
  {
    assert Agree([-4, 2, 2, 2, 4, 1], LAPLACIAN, 21, 36);
    hide Agree;
    AgreeScales();
    Join([4, -2, -2, 1], SCALES, [-4, 2, 2, 2, 4, 1], LAPLACIAN, 12, 21, 36);
    assert RepresentationTemplate(number).value.map_ == [4, -2, -2, 1] + [-4, 2, 2, 2, 4, 1];
  }

  lemma {:induction false} DataJpeg(number: int)
    requires number in {40, 40000}
    ensures DataIs(number, 24)
  {
    assert Agree([1, 1, 1], [Item(21, Count(1)), Item(22, Count(1)), Item(23, Count(1))], 21, 24);
    hide Agree;
    AgreeScales();
    Join([4, -2, -2, 1], SCALES, [1, 1, 1], [Item(21, Count(1)), Item(22, Count(1)), Item(23, Count(1))], 12, 21, 24);
    assert RepresentationTemplate(number).value.map_ == [4, -2, -2, 1] + [1, 1, 1];
  }

  lemma {:induction false} DataAgrees(number: int)
    requires RepresentationTemplate(number).Some?
    ensures DataIs(number, LastOctet(Representation, number) + 1)
  {
    hide Agree, DataItems, RepresentationTemplate;
    DataNumbers(number);
    if number in {0, 41, 40010} { DataSimple(number); }
    else if number == 2 { DataGroups(number); }
    else if number == 3 { DataDifferences(number); }
    else if number == 50 { DataSpectral(number); }
    else if number == 51 { DataLaplacian(number); }
    else { DataJpeg(number); }
  }

  lemma {:induction false} DataNumbers(number: int)
    ensures RepresentationTemplate(number).Some? <==> number in {0, 2, 3, 40, 41, 50, 51, 40000, 40010}
  {
  }

}
