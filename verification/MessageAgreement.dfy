/** What the builder writes, `g2_getfld` reads. */
module MessageAgreement {
  import opened Options
  import opened Shifts
  import opened BitString
  import opened Templates
  import opened SectionFormat
  import opened Sections
  import opened Message
  import opened MessageBuilder
  import opened MessageWalk
  import opened MessageReader
  import opened DataSection

  // ----- what the latest sections are

  /** A grid as it is read: its template number is that of none when another source was given. */
  ghost function GridRead(c: section): (g: GridRecord)
    requires c.GridDefinition?
    ensures |g.igds| == 5
  {
    GridRecord(c.igds[4 := GridNumber(c.igds)], c.gtmpl, c.deflist)
  }

  ghost function LatestGrid(cs: seq<section>): (g: Option<GridRecord>)
    ensures g.Some? ==> |g.value.igds| == 5
  {
    hide Formed;
    if cs == [] then None else
    var c := cs[|cs| - 1];
    if c.GridDefinition? then Some(GridRead(c)) else LatestGrid(cs[..|cs| - 1])
  }

  ghost function LatestLocal(cs: seq<section>): (l: seq<int>)
  {
    if cs == [] then [] else
    var c := cs[|cs| - 1];
    if c.Local? then c.octets else LatestLocal(cs[..|cs| - 1])
  }

  /** The indicator of the latest bit-map section, and the bit map in force after it: 254 keeps the one before. */
  ghost function LatestMap(cs: seq<section>): (b: (int, Option<seq<int>>))
  {
    if cs == [] then (0, None) else
    var c, b := cs[|cs| - 1], LatestMap(cs[..|cs| - 1]);
    if !c.Bitmap? then b
    else (c.ibmap, if c.ibmap == 0 then Some(c.bmap) else if c.ibmap == 254 then b.1 else None)
  }

  ghost predicate HasMap(cs: seq<section>)
  {
    exists i :: 0 <= i < |cs| && cs[i].Bitmap?
  }

  ghost function Ids(cs: seq<section>): (l: seq<int>)
  {
    if cs == [] || !cs[0].Identification? then [] else cs[0].list
  }

  /** The record after the sections cs, when the requested field is not among them. */
  ghost function Base(cs: seq<section>, unpack: bool): (r: Record)
  {
    Record(Ids(cs), LatestLocal(cs), LatestGrid(cs), None, None,
           LatestMap(cs).0, if unpack then LatestMap(cs).1 else None, None, false)
  }

  /** Values fit their octets and, when bit maps are unpacked, those in the message match their grid. */
  ghost predicate Readable(cs: seq<section>, unpack: bool)
  {
    forall j :: 0 <= j < |cs| ==> ReadableAt(cs, unpack, j)
  }

  ghost predicate ReadableAt(cs: seq<section>, unpack: bool, j: nat)
    requires j < |cs|
  {
    && Storable(cs[j])
    && (unpack && cs[j].Bitmap? && cs[j].ibmap == 0 ==>
          cs[j].bmap != [] && LatestGrid(cs[..j]).Some? && LatestGrid(cs[..j]).value.igds[1] == |cs[j].bmap|)
  }

  // ----- bit maps used again

  /** Section i brings the bit map that is in force after cs: only sections that reuse one follow it. */
  ghost predicate InForce(cs: seq<section>, i: int)
  {
    && 0 <= i < |cs| && cs[i].Bitmap? && cs[i].ibmap == 0
    && forall l :: i < l < |cs| && cs[l].Bitmap? ==> cs[l].ibmap == 254
  }

  /** Section j asks for an earlier bit map, and none is in force. */
  ghost predicate Dangling(cs: seq<section>, j: int)
  {
    0 <= j < |cs| && cs[j].Bitmap? && cs[j].ibmap == 254 && !exists i :: InForce(cs[..j], i)
  }

  lemma {:induction false} MapInForce(cs: seq<section>)
    ensures LatestMap(cs).1.Some? ==> exists i :: InForce(cs, i)
    ensures forall i :: InForce(cs, i) ==> LatestMap(cs).1 == Some(cs[i].bmap)
  {
    hide Formed;
    if cs != [] {
      var k := |cs| - 1;
      var c, d := cs[k], cs[..k];
      MapInForce(d);
      forall i | InForce(cs, i) ensures LatestMap(cs).1 == Some(cs[i].bmap) {
        if i < k { assert InForce(d, i); }
      }
      if LatestMap(cs).1.Some? {
        if c.Bitmap? && c.ibmap == 0 {
          assert InForce(cs, k);
        } else {
          var i :| InForce(d, i);
          assert InForce(cs, i);
        }
      }
    }
  }

  lemma {:induction false} DanglingIs(cs: seq<section>, j: nat)
    requires j < |cs| && cs[j].Bitmap?
    ensures Dangling(cs, j) <==> cs[j].ibmap == 254 && LatestMap(cs[..j]).1.None?
  {
    hide Formed, InForce, LatestMap;
    MapInForce(cs[..j]);
  }

  // ----- one section

  lemma {:induction false} BaseSnoc(cs: seq<section>, i: nat, unpack: bool)
    requires i < |cs| && cs[0].Identification?
    ensures var b, c := Base(cs[..i], unpack), cs[i];
      Base(cs[..i + 1], unpack) ==
        match c
        case Identification(list) => if i == 0 then b.(ids := list) else b
        case Local(octets) => b.(local := octets)
        case GridDefinition(_, _, _) => b.(grid := Some(GridRead(c)))
        case Bitmap(ibmap, bmap) => if unpack then WithMap(b, c) else b.(ibmap := ibmap)
        case _ => b
  {
    hide Formed, GridRead;
    assert cs[..i + 1][..i] == cs[..i] && cs[..i + 1][i] == cs[i];
    if i > 0 { assert cs[..i][0] == cs[0]; }
  }

  /** The record with a bit-map section taken. */
  ghost function WithMap(rec: Record, c: section): (r: Record)
    requires c.Bitmap?
  {
    rec.(ibmap := c.ibmap, bmap := if c.ibmap == 0 then Some(c.bmap) else if c.ibmap == 254 then rec.bmap else None)
  }

  lemma {:induction false} MapTaken(c: section, rec: Record, rest: seq<bit>)
    requires c.Bitmap? && Storable(c) && Octets(c) < Pow2(32)
    requires c.ibmap == 0 ==> c.bmap != [] && GridPoints(rec.grid) == |c.bmap|
    ensures TakeBitmap(SectionBits(c) + rest, rec) ==
      if c.ibmap == 254 && rec.bmap.None? then Bad(17) else Got(WithMap(rec, c))
  {
    hide SectionBits, Unpack6, Formed, Storable, Pow2, Octets;
    Read6(c, rest);
  }

  lemma {:induction false} IndicatorTaken(c: section, unp: Unpacker, q: Request, numfld: nat, rec: Record,
                                          rest: seq<bit>)
    requires c.Bitmap? && Storable(c) && Octets(c) < Pow2(32) && !q.unpack
    ensures Take(SectionBits(c) + rest, unp, q, 6, numfld, rec) == Got(rec.(ibmap := c.ibmap))
  {
    hide SectionBits, Formed, Storable, Pow2, Octets, Dec, Unpack1, Unpack2, Unpack3, Unpack4, Unpack5, TakeBitmap,
         TakeData;
    IndicatorRead(c, rest);
  }

  lemma {:induction false} LeadTaken(c: section, unp: Unpacker, q: Request, numfld: nat, rec: Record, rest: seq<bit>)
    requires (c.Identification? || c.Local? || c.GridDefinition?) && Storable(c) && Octets(c) < Pow2(32)
    ensures Take(SectionBits(c) + rest, unp, q, Number(c), numfld, rec) == Got(LeadRecord(c, rec))
  {
    hide SectionBits, Unpack1, Unpack2, Unpack3, Unpack4, Unpack5, TakeBitmap, TakeData, Formed, Storable, Pow2, Octets,
         GridRead;
    if c.Identification? {
      Read1(c, rest);
    } else if c.Local? {
      Read2(c, rest);
    } else {
      ReadAsGrid(c, rest);
    }
  }

  ghost function LeadRecord(c: section, rec: Record): (r: Record)
    requires c.Identification? || c.Local? || c.GridDefinition?
  {
    match c
    case Identification(list) => rec.(ids := list)
    case Local(octets) => rec.(local := octets)
    case _ => rec.(grid := Some(GridRead(c)))
  }

  lemma {:induction false} ReadAsGrid(c: section, rest: seq<bit>)
    requires c.GridDefinition? && Storable(c) && Octets(c) < Pow2(32)
    ensures Unpack3(SectionBits(c) + rest) == Got(GridRead(c))
  {
    hide SectionBits, Unpack3, Formed, Storable, Pow2, Octets;
    Read3(c, rest);
  }

  lemma {:induction false} BasePoints(cs: seq<section>, unpack: bool)
    ensures Base(cs, unpack).grid == LatestGrid(cs)
    ensures LatestGrid(cs).Some? && LatestGrid(cs).value.igds[1] >= 0 ==>
      GridPoints(LatestGrid(cs)) == LatestGrid(cs).value.igds[1]
  {
    hide LatestGrid, LatestLocal, LatestMap;
  }

  /** A section that does not belong to the requested field. */
  lemma {:induction false} TakeOther(cs: seq<section>, i: nat, unp: Unpacker, q: Request, numfld: nat, rest: seq<bit>)
    requires i < |cs| && Readable(cs, q.unpack) && cs[0].Identification? && (cs[i].Identification? ==> i == 0)
    requires numfld != q.ifldnum && Octets(cs[i]) < Pow2(32)
    ensures Take(SectionBits(cs[i]) + rest, unp, q, Number(cs[i]), numfld, Base(cs[..i], q.unpack))
         == if q.unpack && Dangling(cs, i) then Bad(17) else Got(Base(cs[..i + 1], q.unpack))
  {
    hide SectionBits, Unpack1, Unpack2, Unpack3, Unpack4, Unpack5, TakeBitmap, TakeData, Formed, Storable, LatestGrid,
         Pow2, Octets, Base, GridPoints, GridRead, WithMap, Dec;
    assert ReadableAt(cs, q.unpack, i);
    BaseSnoc(cs, i, q.unpack);
    if cs[i].Identification? || cs[i].Local? || cs[i].GridDefinition? {
      LeadTaken(cs[i], unp, q, numfld, Base(cs[..i], q.unpack), rest);
    } else if cs[i].Bitmap? {
      if q.unpack {
        BasePoints(cs[..i], true);
        MapTaken(cs[i], Base(cs[..i], true), rest);
        DanglingIs(cs, i);
        BaseMap(cs[..i]);
      } else {
        IndicatorTaken(cs[i], unp, q, numfld, Base(cs[..i], false), rest);
      }
    }
  }

  lemma {:induction false} BaseMap(cs: seq<section>)
    ensures Base(cs, true).bmap == LatestMap(cs).1
  {
    hide LatestMap, LatestGrid, LatestLocal, Ids;
  }

  /** What is returned of the requested field: its own parts under the latest grid, local section and bit map. */
  ghost function FieldRecord(cs: seq<section>, k: nat, expand: bool, data: seq<real>): (r: Record)
    requires k + 3 < |cs| && cs[k].ProductDefinition? && cs[k + 1].DataRepresentation? && cs[k + 2].Bitmap?
  {
    hide LatestMap, LatestGrid, LatestLocal, Expand;
    var p, d, b := cs[k], cs[k + 1], LatestMap(cs[..k + 3]).1;
    Record(Ids(cs[..k]), LatestLocal(cs[..k]), LatestGrid(cs[..k]),
           Some(ProductRecord(p.pnum, p.ptmpl, p.coords)), Some(DataRecord(d.ndpts, d.dnum, d.dtmpl)),
           cs[k + 2].ibmap, b,
           Some(if b.Some? && expand then Expand(b.value, data, GridPoints(LatestGrid(cs[..k]))) else data),
           b.None? || expand)
  }

  /** Without unpacking: no bit map and no data, and the indicator of the first bit-map section that was seen last. */
  ghost function HeaderRecord(cs: seq<section>, k: nat): (r: Record)
    requires k + 3 < |cs| && cs[k].ProductDefinition? && cs[k + 1].DataRepresentation? && cs[k + 2].Bitmap?
  {
    hide LatestMap, LatestGrid, LatestLocal;
    var p, d := cs[k], cs[k + 1];
    Record(Ids(cs[..k]), LatestLocal(cs[..k]), LatestGrid(cs[..k]),
           Some(ProductRecord(p.pnum, p.ptmpl, p.coords)), Some(DataRecord(d.ndpts, d.dnum, d.dtmpl)),
           if HasMap(cs[..k]) then LatestMap(cs[..k]).0 else cs[k + 2].ibmap, None, None, false)
  }

  // ----- one trip

  /** The bits start with the message m. */
  ghost predicate Starts(s: seq<bit>, m: Msg)
  {
    8 * Total(m) <= |s| && s[..8 * Total(m)] == MsgBits(m) && Total(m) < MAXLEN
  }

  ghost predicate At(st: State, m: Msg, i: nat)
    requires i <= |m.secs|
  {
    st.ipos == Offset(m, i) && st.numfld == Sections4(m.secs[..i]) && st.have6 == HasMap(m.secs[..i])
  }

  lemma {:induction false} MapSnoc(cs: seq<section>, i: nat)
    requires i < |cs|
    ensures HasMap(cs[..i + 1]) <==> HasMap(cs[..i]) || cs[i].Bitmap?
  {
    var d, e := cs[..i], cs[..i + 1];
    assert e[i] == cs[i] && forall j :: 0 <= j < i ==> e[j] == d[j];
  }

  lemma {:induction false} CountSnoc(cs: seq<section>, i: nat)
    requires i < |cs|
    ensures Sections4(cs[..i + 1]) == Sections4(cs[..i]) + if cs[i].ProductDefinition? then 1 else 0
  {
    assert cs[..i + 1] == cs[..i] + [cs[i]];
    CountConcat(cs[..i], [cs[i]]);
    CountOne(cs[i]);
  }

  /** The trip over section i, whatever is taken from it. */
  lemma {:induction false} TripOver(s: seq<bit>, m: Msg, i: nat, unp: Unpacker, q: Request, st: State, r: Got<Record>)
    requires i < |m.secs| && Starts(s, m) && At(st, m, i) && 8 * st.ipos <= |s|
    requires Take(s[8 * st.ipos..], unp, q, Number(m.secs[i]), Sections4(m.secs[..i + 1]), st.rec) == r
    ensures Step(s, unp, q, Extent(0, Total(m)), st)
         == if r.Bad? then Error(r.ierr)
            else Onward(q, State(Offset(m, i + 1), Sections4(m.secs[..i + 1]), HasMap(m.secs[..i + 1]), r.value))
  {
    hide Bits, Dec, MsgBits, SectionBits, Take, Octets, Total, Offset, Formed, Sections4, Body, AllSeen, HasMap;
    var c := m.secs[i];
    var rest := FromSection(s, m, i);
    Lengths(m, i);
    CountSnoc(m.secs, i);
    MapSnoc(m.secs, i);
    Fields(s, 8 * st.ipos, c, rest);
    SevensValue();
  }

  ghost function Onward(q: Request, st: State): (o: Outcome)
  {
    if AllSeen(q, st.have6, st.rec) then Found(st.rec) else Going(st)
  }

  // ----- up to the requested field

  lemma {:induction false} OtherTrip(s: seq<bit>, m: Msg, unp: Unpacker, q: Request, i: nat, st: State)
    returns (st': State)
    requires i < |m.secs| && Starts(s, m) && Ordered(m) && Readable(m.secs, q.unpack)
    requires At(st, m, i) && st.rec == Base(m.secs[..i], q.unpack) && Sections4(m.secs[..i + 1]) != q.ifldnum
    ensures Step(s, unp, q, Extent(0, Total(m)), st) ==
      if q.unpack && Dangling(m.secs, i) then Error(17) else Going(st')
    ensures At(st', m, i + 1) && st'.rec == Base(m.secs[..i + 1], q.unpack)
  {
    hide Bits, MsgBits, SectionBits, Take, Octets, Total, Offset, Formed, Sections4, Step, Base, Readable, Starts,
         AllSeen, Ordered, Dangling, HasMap;
    var r := Base(m.secs[..i + 1], q.unpack);
    SmallSections(s, m, i);
    var rest := FromStart(s, m, i);
    OnlyFirst(m, i);
    TakeOther(m.secs, i, unp, q, Sections4(m.secs[..i + 1]), rest);
    TripOver(s, m, i, unp, q, st, if q.unpack && Dangling(m.secs, i) then Bad(17) else Got(r));
    st' := State(Offset(m, i + 1), Sections4(m.secs[..i + 1]), HasMap(m.secs[..i + 1]), r);
    NotSeen(m.secs[..i + 1], q, st'.have6);
  }

  /** From section i on, n sections of other fields, none of them dangling. */
  lemma {:induction false} WalkOn(s: seq<bit>, m: Msg, unp: Unpacker, q: Request, i: nat, st: State, n: nat, t: nat)
    returns (st': State)
    requires i + n <= |m.secs| && Starts(s, m) && Ordered(m) && Readable(m.secs, q.unpack)
    requires At(st, m, i) && st.rec == Base(m.secs[..i], q.unpack)
    requires forall j :: i < j <= i + n ==> Sections4(m.secs[..j]) != q.ifldnum
    requires q.unpack ==> forall j :: i <= j < i + n ==> !Dangling(m.secs, j)
    ensures At(st', m, i + n) && st'.rec == Base(m.secs[..i + n], q.unpack)
    ensures Loop(s, unp, q, Extent(0, Total(m)), st, n + t) == Loop(s, unp, q, Extent(0, Total(m)), st', t)
    decreases n
  {
    hide *;
    if n == 0 {
      st' := st;
    } else {
      var st1 := OtherTrip(s, m, unp, q, i, st);
      LoopStep(s, unp, q, Extent(0, Total(m)), st, n + t);
      st' := WalkOn(s, m, unp, q, i + 1, st1, n - 1, t);
    }
  }

  lemma {:induction false} NotSeen(cs: seq<section>, q: Request, have6: bool)
    ensures !AllSeen(q, have6, Base(cs, q.unpack))
  {
    hide LatestGrid, LatestLocal, LatestMap;
  }

  lemma {:induction false} OnlyFirst(m: Msg, i: nat)
    requires Ordered(m) && i < |m.secs|
    ensures m.secs[i].Identification? ==> i == 0
    ensures m.secs[0].Identification?
  {
    if i > 0 { assert Follows(Number(m.secs[i - 1]), Number(m.secs[i])); }
  }

  lemma {:induction false} SmallSections(s: seq<bit>, m: Msg, i: nat)
    requires Starts(s, m) && i < |m.secs|
    ensures Octets(m.secs[i]) < Pow2(32)
  {
    hide MsgBits, SectionBits, Total, Octets, Formed, Offset, Pow2;
    var _ := FromStart(s, m, i);
    Pow2Exceeds32();
  }

  lemma {:induction false} FromStart(s: seq<bit>, m: Msg, i: nat) returns (rest: seq<bit>)
    requires Starts(s, m) && i < |m.secs|
    ensures 8 * Offset(m, i) <= |s| && s[8 * Offset(m, i)..] == SectionBits(m.secs[i]) + rest
    ensures Octets(m.secs[i]) <= Total(m)
  {
    hide MsgBits, SectionBits, Total, Offset, Octets, Formed;
    rest := FromSection(s, m, i);
  }

  // ----- the requested field

  lemma {:induction false} OwnTaken(c: section, unp: Unpacker, q: Request, numfld: nat, rec: Record, rest: seq<bit>)
    requires (c.ProductDefinition? || c.DataRepresentation?) && Storable(c) && Octets(c) < Pow2(32)
    requires numfld == q.ifldnum
    ensures Take(SectionBits(c) + rest, unp, q, Number(c), numfld, rec)
         == Got(OwnRecord(c, rec))
  {
    hide SectionBits, Unpack1, Unpack2, Unpack3, Unpack4, Unpack5, TakeBitmap, TakeData, Formed, Storable, Pow2, Octets;
    if c.ProductDefinition? { Read4(c, rest); } else { Read5(c, rest); }
  }

  /** Sections 4 to 7 of a field, in place. */
  ghost predicate FieldAt(cs: seq<section>, k: nat)
  {
    && k + 3 < |cs| && cs[k].ProductDefinition? && cs[k + 1].DataRepresentation? && cs[k + 2].Bitmap? && cs[k + 3].Data?
  }

  lemma {:induction false} FieldFollows(m: Msg, k: nat)
    requires Ordered(m) && k < |m.secs| && m.secs[k].ProductDefinition?
    ensures FieldAt(m.secs, k)
  {
    hide Ordered, Formed;
    NextNumber(m, k);
    NextNumber(m, k + 1);
    NextNumber(m, k + 2);
  }

  /** Sections 4, 5 and 6 are never the last, and the next number follows. */
  lemma {:induction false} NextNumber(m: Msg, k: nat)
    requires Ordered(m) && k < |m.secs| && 4 <= Number(m.secs[k]) <= 6
    ensures k + 1 < |m.secs| && Number(m.secs[k + 1]) == Number(m.secs[k]) + 1
  {
    hide Formed, Number;
    if k + 1 < |m.secs| { assert Follows(Number(m.secs[k]), Number(m.secs[k + 1])); }
  }

  /** The unpacker makes `data` of the field's section 7, whatever comes after it. */
  ghost predicate Unpacks(unp: Unpacker, cs: seq<section>, k: nat, data: seq<real>)
    requires FieldAt(cs, k)
  {
    GivesAlways(unp, LatestGrid(cs[..k]), DataRecord(cs[k + 1].ndpts, cs[k + 1].dnum, cs[k + 1].dtmpl),
                SectionBits(cs[k + 3]), data)
  }

  ghost predicate GivesAlways(unp: Unpacker, grid: Option<GridRecord>, repr: DataRecord, e: seq<bit>, data: seq<real>)
  {
    forall s :: e <= s ==> Gives(unp, grid, repr, s, data)
  }

  ghost predicate Gives(unp: Unpacker, grid: Option<GridRecord>, repr: DataRecord, s: seq<bit>, data: seq<real>)
  {
    unp(grid, Some(repr), s) == Some(data)
  }

  lemma {:induction false} DataTaken(cs: seq<section>, k: nat, unp: Unpacker, q: Request, data: seq<real>, rec: Record,
                                     rest: seq<bit>)
    requires FieldAt(cs, k) && Unpacks(unp, cs, k, data)
    requires rec == FieldRecord(cs, k, q.expand, data).(fld := None, expanded := false)
    ensures TakeData(SectionBits(cs[k + 3]) + rest, unp, q.expand, rec) == Got(FieldRecord(cs, k, q.expand, data))
  {
    hide SectionBits, LatestGrid, LatestLocal, Expand, Formed;
    var s, d := SectionBits(cs[k + 3]) + rest, cs[k + 1];
    assert SectionBits(cs[k + 3]) <= s;
    assert Gives(unp, LatestGrid(cs[..k]), DataRecord(d.ndpts, d.dnum, d.dtmpl), s, data);
    assert cs[..k + 3][k + 2] == cs[k + 2];
  }

  lemma {:induction false} FieldStays(cs: seq<section>, k: nat)
    requires FieldAt(cs, k)
    ensures LatestGrid(cs[..k + 2]) == LatestGrid(cs[..k]) && LatestMap(cs[..k + 2]) == LatestMap(cs[..k])
    ensures HasMap(cs[..k + 1]) == HasMap(cs[..k + 2]) == HasMap(cs[..k]) && HasMap(cs[..k + 3])
    ensures var c := cs[k + 2];
      LatestMap(cs[..k + 3]) ==
        (c.ibmap, if c.ibmap == 0 then Some(c.bmap) else if c.ibmap == 254 then LatestMap(cs[..k]).1 else None)
  {
    hide GridRead, Formed, HasMap;
    assert cs[..k + 3][..k + 2] == cs[..k + 2] && cs[..k + 2][..k + 1] == cs[..k + 1] && cs[..k + 1][..k] == cs[..k];
    MapSnoc(cs, k);
    MapSnoc(cs, k + 1);
    MapSnoc(cs, k + 2);
  }

  ghost function OwnRecord(c: section, rec: Record): (r: Record)
    requires c.ProductDefinition? || c.DataRepresentation?
  {
    if c.ProductDefinition? then rec.(product := Some(ProductRecord(c.pnum, c.ptmpl, c.coords)), expanded := false)
    else rec.(repr := Some(DataRecord(c.ndpts, c.dnum, c.dtmpl)))
  }

  /** Where the walk is after section i, with a record. */
  ghost function Past(m: Msg, i: nat, r: Record): (st: State)
    requires i < |m.secs|
  {
    State(Offset(m, i + 1), Sections4(m.secs[..i + 1]), HasMap(m.secs[..i + 1]), r)
  }

  lemma {:induction false} OwnTrip(s: seq<bit>, m: Msg, unp: Unpacker, q: Request, i: nat, st: State)
    requires i < |m.secs| && (m.secs[i].ProductDefinition? || m.secs[i].DataRepresentation?) && Storable(m.secs[i])
    requires Starts(s, m) && At(st, m, i) && Sections4(m.secs[..i + 1]) == q.ifldnum
    ensures Step(s, unp, q, Extent(0, Total(m)), st) == Onward(q, Past(m, i, OwnRecord(m.secs[i], st.rec)))
  {
    hide Bits, MsgBits, SectionBits, Octets, Total, Offset, Formed, Sections4, Step, Starts, Storable, Pow2, Take,
         Onward, HasMap, OwnRecord;
    SmallSections(s, m, i);
    var rest := FromStart(s, m, i);
    OwnTaken(m.secs[i], unp, q, Sections4(m.secs[..i + 1]), st.rec, rest);
    TripOver(s, m, i, unp, q, st, Got(OwnRecord(m.secs[i], st.rec)));
  }

  lemma {:induction false} MapTrip(s: seq<bit>, m: Msg, unp: Unpacker, q: Request, i: nat, st: State)
    requires i < |m.secs| && m.secs[i].Bitmap? && Starts(s, m) && At(st, m, i) && ReadableAt(m.secs, q.unpack, i)
    requires st.rec.grid == LatestGrid(m.secs[..i]) && (q.unpack ==> st.rec.bmap == LatestMap(m.secs[..i]).1)
    ensures Step(s, unp, q, Extent(0, Total(m)), st)
         == if q.unpack && Dangling(m.secs, i) then Error(17)
            else Onward(q, Past(m, i, if q.unpack then WithMap(st.rec, m.secs[i])
                                      else st.rec.(ibmap := m.secs[i].ibmap)))
  {
    hide Bits, MsgBits, SectionBits, Octets, Total, Offset, Formed, Sections4, Step, Starts, Storable, Pow2, TakeBitmap,
         LatestGrid, Unpack1, Unpack2, Unpack3, Unpack4, Unpack5, TakeData, HasMap, Dangling, LatestMap, WithMap,
         Onward, Dec;
    SmallSections(s, m, i);
    var rest := FromStart(s, m, i);
    var c := m.secs[i];
    if q.unpack {
      MapTaken(c, st.rec, rest);
      DanglingIs(m.secs, i);
      TripOver(s, m, i, unp, q, st, if Dangling(m.secs, i) then Bad(17) else Got(WithMap(st.rec, c)));
    } else {
      IndicatorTaken(c, unp, q, Sections4(m.secs[..i + 1]), st.rec, rest);
      TripOver(s, m, i, unp, q, st, Got(st.rec.(ibmap := c.ibmap)));
    }
  }

  lemma {:induction false} DataTrip(s: seq<bit>, m: Msg, unp: Unpacker, q: Request, k: nat, st: State, data: seq<real>)
    requires Starts(s, m) && FieldAt(m.secs, k) && At(st, m, k + 3) && Unpacks(unp, m.secs, k, data)
    requires Sections4(m.secs[..k + 4]) == q.ifldnum && q.unpack && LatestGrid(m.secs[..k]).Some?
    requires HasMap(m.secs[..k + 3])
    requires st.rec == FieldRecord(m.secs, k, q.expand, data).(fld := None, expanded := false)
    ensures Step(s, unp, q, Extent(0, Total(m)), st) == Found(FieldRecord(m.secs, k, q.expand, data))
  {
    hide Bits, MsgBits, SectionBits, Octets, Total, Offset, Formed, Sections4, Step, Starts, Storable, Pow2, TakeBitmap,
         LatestGrid, Unpack1, Unpack2, Unpack3, Unpack4, Unpack5, TakeData, Unpacks, Expand, LatestLocal, HasMap,
         LatestMap, Dec;
    var i := k + 3;
    var rest := FromStart(s, m, i);
    DataTaken(m.secs, k, unp, q, data, st.rec, rest);
    MapSnoc(m.secs, i);
    TripOver(s, m, i, unp, q, st, Got(FieldRecord(m.secs, k, q.expand, data)));
  }

  lemma {:induction false} PastIsAt(m: Msg, i: nat, r: Record)
    requires i < |m.secs|
    ensures At(Past(m, i, r), m, i + 1)
  {
    hide Offset, Sections4, HasMap;
  }

  /** The record when sections 4 and 5 of the requested field have been taken. */
  ghost function Midway(cs: seq<section>, k: nat, unpack: bool): (r: Record)
    requires FieldAt(cs, k)
  {
    OwnRecord(cs[k + 1], OwnRecord(cs[k], Base(cs[..k], unpack)))
  }

  lemma {:induction false} MidwayIs(cs: seq<section>, k: nat, unpack: bool)
    requires FieldAt(cs, k)
    ensures var r, p, d := Midway(cs, k, unpack), cs[k], cs[k + 1];
      r == Record(Ids(cs[..k]), LatestLocal(cs[..k]), LatestGrid(cs[..k]),
                  Some(ProductRecord(p.pnum, p.ptmpl, p.coords)), Some(DataRecord(d.ndpts, d.dnum, d.dtmpl)),
                  LatestMap(cs[..k]).0, if unpack then LatestMap(cs[..k]).1 else None, None, false)
  {
    hide LatestGrid, LatestLocal, LatestMap, Ids, Formed;
  }

  /** The trips over sections 4 and 5; without unpacking the walk ends there if any bit-map section was seen before. */
  lemma {:induction false} HeaderTrips(s: seq<bit>, m: Msg, unp: Unpacker, q: Request, k: nat, st: State, t: nat)
    requires Starts(s, m) && Readable(m.secs, q.unpack) && FieldAt(m.secs, k)
    requires At(st, m, k) && st.rec == Base(m.secs[..k], q.unpack) && Sections4(m.secs[..k + 1]) == q.ifldnum
    requires LatestGrid(m.secs[..k]).Some?
    ensures Loop(s, unp, q, Extent(0, Total(m)), st, 2 + t)
         == if !q.unpack && HasMap(m.secs[..k]) then Found(Midway(m.secs, k, q.unpack))
            else Loop(s, unp, q, Extent(0, Total(m)), Past(m, k + 1, Midway(m.secs, k, q.unpack)), t)
  {
    hide Bits, MsgBits, SectionBits, Octets, Total, Offset, Formed, Sections4, Step, LatestGrid, LatestLocal, LatestMap,
         Starts, Storable, HasMap, Loop, At;
    var cs, x := m.secs, Extent(0, Total(m));
    var b := Base(cs[..k], q.unpack);
    assert ReadableAt(cs, q.unpack, k) && ReadableAt(cs, q.unpack, k + 1);
    Counts(cs, k);
    FieldStays(cs, k);
    var st1 := Past(m, k, OwnRecord(cs[k], b));
    OwnTrip(s, m, unp, q, k, st);
    PastIsAt(m, k, OwnRecord(cs[k], b));
    OwnTrip(s, m, unp, q, k + 1, st1);
    LoopStep(s, unp, q, x, st, 2 + t);
    LoopStep(s, unp, q, x, st1, 1 + t);
  }

  /** The four trips over the requested field. */
  lemma {:induction false} FieldTrips(s: seq<bit>, m: Msg, unp: Unpacker, q: Request, k: nat, st: State,
                                      data: seq<real>)
    requires Starts(s, m) && Readable(m.secs, true) && q.unpack && FieldAt(m.secs, k)
    requires At(st, m, k) && st.rec == Base(m.secs[..k], true) && Sections4(m.secs[..k + 1]) == q.ifldnum
    requires LatestGrid(m.secs[..k]).Some? && (!Dangling(m.secs, k + 2) ==> Unpacks(unp, m.secs, k, data))
    ensures Loop(s, unp, q, Extent(0, Total(m)), st, 4)
         == if Dangling(m.secs, k + 2) then Error(17) else Found(FieldRecord(m.secs, k, q.expand, data))
  {
    hide Bits, MsgBits, SectionBits, Octets, Total, Offset, Formed, Sections4, Step, LatestGrid, LatestLocal, LatestMap,
         Starts, Expand, Storable, Pow2, Unpacks, TakeData, TakeBitmap, Dec, HasMap, Dangling, Loop, Midway, Base, At,
         Ids;
    var cs, x := m.secs, Extent(0, Total(m));
    var r := Midway(cs, k, true);
    assert ReadableAt(cs, true, k + 2);
    Counts(cs, k);
    FieldStays(cs, k);
    MidwayIs(cs, k, true);
    HeaderTrips(s, m, unp, q, k, st, 2);
    var st2 := Past(m, k + 1, r);
    PastIsAt(m, k + 1, r);
    MapTrip(s, m, unp, q, k + 2, st2);
    LoopStep(s, unp, q, x, st2, 2);
    if !Dangling(cs, k + 2) {
      var st3 := Past(m, k + 2, WithMap(r, cs[k + 2]));
      PastIsAt(m, k + 2, WithMap(r, cs[k + 2]));
      DataTrip(s, m, unp, q, k, st3, data);
      LoopStep(s, unp, q, x, st3, 1);
    }
  }

  /** Without unpacking, two trips over the requested field, or three when it is the first. */
  lemma {:induction false} PlainTrips(s: seq<bit>, m: Msg, unp: Unpacker, q: Request, k: nat, st: State)
    requires Starts(s, m) && Readable(m.secs, false) && !q.unpack && FieldAt(m.secs, k)
    requires At(st, m, k) && st.rec == Base(m.secs[..k], false) && Sections4(m.secs[..k + 1]) == q.ifldnum
    requires LatestGrid(m.secs[..k]).Some?
    ensures Loop(s, unp, q, Extent(0, Total(m)), st, 3) == Found(HeaderRecord(m.secs, k))
  {
    hide Bits, MsgBits, SectionBits, Octets, Total, Offset, Formed, Sections4, Step, LatestGrid, LatestLocal, LatestMap,
         Starts, Storable, Pow2, TakeData, TakeBitmap, Dec, HasMap, Dangling, Loop, Midway, Base, At, Ids;
    var cs, x := m.secs, Extent(0, Total(m));
    var r := Midway(cs, k, false);
    assert ReadableAt(cs, false, k + 2);
    Counts(cs, k);
    FieldStays(cs, k);
    MidwayIs(cs, k, false);
    HeaderTrips(s, m, unp, q, k, st, 1);
    var st2 := Past(m, k + 1, r);
    PastIsAt(m, k + 1, r);
    MapTrip(s, m, unp, q, k + 2, st2);
    LoopStep(s, unp, q, x, st2, 1);
  }

  lemma {:induction false} Counts(cs: seq<section>, k: nat)
    requires FieldAt(cs, k)
    ensures Sections4(cs[..k + 2]) == Sections4(cs[..k + 1]) && Sections4(cs[..k + 3]) == Sections4(cs[..k + 1])
    ensures Sections4(cs[..k + 4]) == Sections4(cs[..k + 1])
  {
    hide Sections4;
    CountSnoc(cs, k + 1);
    CountSnoc(cs, k + 2);
    CountSnoc(cs, k + 3);
  }

  // ----- the whole walk

  lemma {:induction false} BeginAt(a: seq<byte>, m: Msg, q: Request)
    requires Starts(Bits(a), m) && q.ifldnum > 0
    ensures Begin(a, q) == Got(Extent(0, Total(m)))
  {
    hide Bits, Enc, Dec, AllBits, EndBits, AllOctets, Pow2;
    var s := Bits(a);
    var e := MsgBits(m);
    assert |a| >= 16;
    BitsSlice(a, 0, 4);
    assert s[0..32] == s[..8 * Total(m)][..32] == Bits(GRIB);
    BitsInjective(a[0..4], GRIB);
    assert s[56..64] == s[..8 * Total(m)][56..64] == Enc(2, 8);
    assert s[96..128] == s[..8 * Total(m)][96..128] == Enc(Total(m), 32);
    DecByte(2);
    DecEnc(Total(m), 32);
    Pow2Exceeds32();
    LowIdentity(Total(m), 32);
  }

  lemma {:induction false} StartAt(m: Msg)
    ensures At(State(16, 0, false, EMPTY), m, 0) && EMPTY == Base(m.secs[..0], true) == Base(m.secs[..0], false)
  {
    NothingBefore(m);
  }

  lemma {:induction false} GridThere(cs: seq<section>, j: nat)
    requires j < |cs| && cs[j].GridDefinition?
    ensures LatestGrid(cs).Some?
  {
    hide Formed, GridRead;
    if j < |cs| - 1 { GridThere(cs[..|cs| - 1], j); }
  }

  lemma {:induction false} GridAhead(m: Msg, k: nat)
    requires Ordered(m) && k < |m.secs| && Number(m.secs[k]) > 3
    ensures LatestGrid(m.secs[..k]).Some?
  {
    hide Formed, LatestGrid;
    assert Follows(Number(m.secs[k - 1]), Number(m.secs[k]));
    if m.secs[k - 1].GridDefinition? {
      GridThere(m.secs[..k], k - 1);
    } else {
      GridAhead(m, k - 1);
      GridKept(m.secs, k - 1);
    }
  }

  lemma {:induction false} GridKept(cs: seq<section>, i: nat)
    requires i < |cs| && LatestGrid(cs[..i]).Some?
    ensures LatestGrid(cs[..i + 1]).Some?
  {
    hide Formed, GridRead;
    assert cs[..i + 1][..i] == cs[..i];
  }

  lemma {:induction false} CountMonotone(cs: seq<section>, i: nat, j: nat)
    requires i <= j <= |cs|
    ensures Sections4(cs[..i]) <= Sections4(cs[..j])
  {
    hide Sections4;
    if i < j {
      CountMonotone(cs, i, j - 1);
      CountSnoc(cs, j - 1);
    }
  }

  /** The sections of a message are few enough for the trips of the routine. */
  lemma {:induction false} Enough(a: seq<byte>, m: Msg, q: Request, n: nat)
    requires Starts(Bits(a), m) && n <= |m.secs| + 1
    ensures n <= Trips(Bits(a), q, State(16, 0, false, EMPTY))
  {
    hide Bits, MsgBits, Octets;
    AtLeast(m.secs);
  }

  /** A walk that ends within as many trips as there are sections, and one for the end, is the routine's. */
  lemma {:induction false} Walked(a: seq<byte>, m: Msg, unp: Unpacker, q: Request, n: nat)
    requires Starts(Bits(a), m) && q.ifldnum > 0 && n <= |m.secs| + 1
    requires !Loop(Bits(a), unp, q, Extent(0, Total(m)), State(16, 0, false, EMPTY), n).Going?
    ensures GetFldOutcome(a, unp, q) == Loop(Bits(a), unp, q, Extent(0, Total(m)), State(16, 0, false, EMPTY), n)
  {
    hide Bits, Begin, Starts, Total, Loop, Trips;
    BeginAt(a, m, q);
    Enough(a, m, q, n);
    LoopMore(Bits(a), unp, q, Extent(0, Total(m)), State(16, 0, false, EMPTY), n,
             Trips(Bits(a), q, State(16, 0, false, EMPTY)));
  }

  /**
   * Asked for the field whose section 4 is section k of a message that starts the octets,
   * `g2_getfld` returns that field's product and representation, the latest grid and local
   * section before it, and its data, expanded by the bit map in force if so requested.
   */
  lemma {:induction false} FieldIsRead(a: seq<byte>, m: Msg, unp: Unpacker, q: Request, k: nat, data: seq<real>)
    requires Starts(Bits(a), m) && Ordered(m) && Readable(m.secs, true) && q.unpack
    requires FieldAt(m.secs, k) && Sections4(m.secs[..k + 1]) == q.ifldnum && Unpacks(unp, m.secs, k, data)
    requires forall j :: 0 <= j < k + 3 ==> !Dangling(m.secs, j)
    ensures GetFldOutcome(a, unp, q) == Found(FieldRecord(m.secs, k, q.expand, data))
  {
    hide *;
    FieldParts(m.secs, k);
    CountSnoc(m.secs, k);
    StartAt(m);
    GridAhead(m, k);
    forall j | 0 < j <= k ensures Sections4(m.secs[..j]) != q.ifldnum {
      CountMonotone(m.secs, j, k);
    }
    var st := WalkOn(Bits(a), m, unp, q, 0, State(16, 0, false, EMPTY), k, 4);
    FieldTrips(Bits(a), m, unp, q, k, st, data);
    Walked(a, m, unp, q, k + 4);
  }

  lemma {:induction false} EndStep(s: seq<bit>, m: Msg, unp: Unpacker, q: Request, st: State)
    requires Starts(s, m) && m.ended && At(st, m, |m.secs|)
    ensures Step(s, unp, q, Extent(0, Total(m)), st) == Error(6)
  {
    hide Dec, HeadBits, AllBits, Enc, AllOctets, Sections4, Take, Bits;
    assert m.secs[..|m.secs|] == m.secs;
    var p := 8 * Offset(m, |m.secs|);
    assert s[p..p + 32] == s[..8 * Total(m)][p..];
    assert MsgBits(m)[p..] == EndBits(true);
  }

  /** Asked for more fields than a finished message has, it says so, unless a bit map to be used again is missing. */
  lemma {:induction false} MissingIsTold(a: seq<byte>, m: Msg, unp: Unpacker, q: Request)
    requires Starts(Bits(a), m) && Ordered(m) && m.ended && Readable(m.secs, q.unpack) && q.ifldnum > Sections4(m.secs)
    ensures GetFldOutcome(a, unp, q) == Error(if q.unpack && exists j :: Dangling(m.secs, j) then 17 else 6)
  {
    hide Bits, Begin, Ordered, Readable, Sections4, Starts, Total, At, Base, Formed, Step, Dangling, GetFldOutcome,
         Loop;
    var n := |m.secs|;
    assert m.secs[..n] == m.secs;
    if q.unpack && exists j :: Dangling(m.secs, j) {
      var j :| Dangling(m.secs, j);
      DanglingInside(m.secs, j);
      CountMonotone(m.secs, j, n);
      DanglingIsTold(a, m, unp, q, j);
    } else {
      StartAt(m);
      forall j | 0 < j <= n ensures Sections4(m.secs[..j]) != q.ifldnum {
        CountMonotone(m.secs, j, n);
      }
      var st := WalkOn(Bits(a), m, unp, q, 0, State(16, 0, false, EMPTY), n, 1);
      EndStep(Bits(a), m, unp, q, st);
      LoopStep(Bits(a), unp, q, Extent(0, Total(m)), st, 1);
      Walked(a, m, unp, q, n + 1);
    }
  }

  lemma {:induction false} DanglingInside(cs: seq<section>, j: int)
    requires Dangling(cs, j)
    ensures 0 <= j < |cs| && cs[j].Bitmap?
  {
    hide InForce;
  }

  /**
   * A section 6 that asks for an earlier bit map when none is in force stops the walk with 17, for
   * whichever later field.
   */
  lemma {:induction false} DanglingIsTold(a: seq<byte>, m: Msg, unp: Unpacker, q: Request, j: nat)
    requires Starts(Bits(a), m) && Ordered(m) && Readable(m.secs, true) && q.unpack && q.ifldnum > 0
    requires Dangling(m.secs, j) && Sections4(m.secs[..j]) <= q.ifldnum
    ensures GetFldOutcome(a, unp, q) == Error(17)
    decreases j
  {
    hide Bits, Begin, Ordered, Readable, Sections4, Starts, Total, At, Base, Formed, Step, Dangling, GetFldOutcome,
         Loop, Unpacks, FieldRecord;
    DanglingInside(m.secs, j);
    if i: nat :| i < j && Dangling(m.secs, i) {
      CountMonotone(m.secs, i, j);
      DanglingIsTold(a, m, unp, q, i);
    } else {
      StartAt(m);
      var s, x, st0 := Bits(a), Extent(0, Total(m)), State(16, 0, false, EMPTY);
      if Sections4(m.secs[..j]) < q.ifldnum {
        forall l | 0 < l <= j ensures Sections4(m.secs[..l]) != q.ifldnum {
          CountMonotone(m.secs, l, j);
        }
        var st := WalkOn(s, m, unp, q, 0, st0, j, 1);
        CountSnoc(m.secs, j);
        var _ := OtherTrip(s, m, unp, q, j, st);
        LoopStep(s, unp, q, x, st, 1);
        Walked(a, m, unp, q, j + 1);
      } else {
        var k := MapOfField(m, j);
        CountSnoc(m.secs, k);
        forall l | 0 < l <= k ensures Sections4(m.secs[..l]) != q.ifldnum {
          CountMonotone(m.secs, l, k);
        }
        GridAhead(m, k);
        var st := WalkOn(s, m, unp, q, 0, st0, k, 4);
        FieldTrips(s, m, unp, q, k, st, []);
        Walked(a, m, unp, q, k + 4);
      }
    }
  }

  /** A section 6 belongs to a field. */
  lemma {:induction false} MapOfField(m: Msg, j: nat) returns (k: nat)
    requires Ordered(m) && j < |m.secs| && m.secs[j].Bitmap?
    ensures j == k + 2 && FieldAt(m.secs, k) && m.secs[k].ProductDefinition?
    ensures Sections4(m.secs[..k + 1]) == Sections4(m.secs[..j])
  {
    hide Sections4, Formed;
    assert j >= 1 && Follows(Number(m.secs[j - 1]), Number(m.secs[j]));
    assert j >= 2 && Follows(Number(m.secs[j - 2]), Number(m.secs[j - 1]));
    k := j - 2;
    FieldFollows(m, k);
    Counts(m.secs, k);
  }

  /**
   * The requested field is read if and only if no section 6 up to its own asks for a bit map when
   * none is in force; otherwise the error is 17.
   */
  lemma {:induction false} ReadExactly(a: seq<byte>, m: Msg, unp: Unpacker, q: Request, k: nat, data: seq<real>)
    requires Starts(Bits(a), m) && Ordered(m) && Readable(m.secs, true) && q.unpack
    requires FieldAt(m.secs, k) && Sections4(m.secs[..k + 1]) == q.ifldnum && Unpacks(unp, m.secs, k, data)
    ensures GetFldOutcome(a, unp, q)
         == if exists j :: 0 <= j < k + 3 && Dangling(m.secs, j) then Error(17)
            else Found(FieldRecord(m.secs, k, q.expand, data))
  {
    hide *;
    if j: int :| 0 <= j < k + 3 && Dangling(m.secs, j) {
      FieldParts(m.secs, k);
      CountSnoc(m.secs, k);
      Counts(m.secs, k);
      CountMonotone(m.secs, j, k + 3);
      DanglingIsTold(a, m, unp, q, j);
    } else {
      FieldIsRead(a, m, unp, q, k, data);
    }
  }

  /** Without unpacking, the walk returns at section 5 of the requested field, or at section 6 of the first field. */
  lemma {:induction false} HeaderIsRead(a: seq<byte>, m: Msg, unp: Unpacker, q: Request, k: nat)
    requires Starts(Bits(a), m) && Ordered(m) && Readable(m.secs, false) && !q.unpack
    requires FieldAt(m.secs, k) && Sections4(m.secs[..k + 1]) == q.ifldnum
    ensures GetFldOutcome(a, unp, q) == Found(HeaderRecord(m.secs, k))
  {
    hide *;
    FieldParts(m.secs, k);
    CountSnoc(m.secs, k);
    StartAt(m);
    GridAhead(m, k);
    forall j | 0 < j <= k ensures Sections4(m.secs[..j]) != q.ifldnum {
      CountMonotone(m.secs, j, k);
    }
    var st := WalkOn(Bits(a), m, unp, q, 0, State(16, 0, false, EMPTY), k, 3);
    PlainTrips(Bits(a), m, unp, q, k, st);
    Walked(a, m, unp, q, k + 3);
  }

  lemma {:induction false} FieldParts(cs: seq<section>, k: nat)
    requires FieldAt(cs, k)
    ensures k + 3 < |cs| && cs[k].ProductDefinition? && cs[k + 1].DataRepresentation? && cs[k + 2].Bitmap?
    ensures Number(cs[k]) == 4
  {
    hide Formed;
  }

  /** The field before a field that is not the first. */
  lemma {:induction false} FieldBefore(m: Msg, k: nat) returns (j: nat)
    requires Ordered(m) && k < |m.secs| && m.secs[k].ProductDefinition? && Sections4(m.secs[..k]) > 0
    ensures FieldAt(m.secs, j) && j + 3 < k && Sections4(m.secs[..j + 1]) == Sections4(m.secs[..k])
    ensures HasMap(m.secs[..k]) && LatestMap(m.secs[..k]).0 == m.secs[j + 2].ibmap
  {
    hide Sections4, Formed, LatestMap, HasMap, Follows;
    j := LastProduct(m.secs, k);
    FieldFollows(m, j);
    Counts(m.secs, j);
    FieldStays(m.secs, j);
    MapsStay(m, j + 3, k);
  }

  lemma {:induction false} LastProduct(cs: seq<section>, k: nat) returns (j: nat)
    requires k <= |cs| && Sections4(cs[..k]) > 0
    ensures j < k && cs[j].ProductDefinition? && Sections4(cs[..j + 1]) == Sections4(cs[..k])
  {
    hide Sections4, Formed;
    if k == 0 { NoneCounted(cs); }
    CountSnoc(cs, k - 1);
    if cs[k - 1].ProductDefinition? { j := k - 1; } else { j := LastProduct(cs, k - 1); }
  }

  lemma {:induction false} NoneCounted(cs: seq<section>)
    ensures Sections4(cs[..0]) == 0
  {
  }

  /** Where no field begins, no bit-map section comes. */
  lemma {:induction false} MapsStay(m: Msg, i: nat, k: nat)
    requires Ordered(m) && 3 <= i <= k <= |m.secs| && m.secs[i - 1].Bitmap?
    requires Sections4(m.secs[..i]) == Sections4(m.secs[..k])
    ensures HasMap(m.secs[..k]) && LatestMap(m.secs[..k]).0 == m.secs[i - 1].ibmap
    decreases k - i
  {
    hide Sections4, Formed, Ordered;
    if i < k {
      CountMonotone(m.secs, i, k - 1);
      CountMonotone(m.secs, k - 1, k);
      MapsStay(m, i, k - 1);
      MapSnoc(m.secs, k - 1);
      NoMapBetween(m, i, k);
      assert m.secs[..k][..k - 1] == m.secs[..k - 1] && m.secs[..k][k - 1] == m.secs[k - 1];
    } else {
      assert m.secs[..k][k - 1] == m.secs[k - 1];
    }
  }

  lemma {:induction false} NoMapBetween(m: Msg, i: nat, k: nat)
    requires Ordered(m) && 3 <= i < k <= |m.secs| && m.secs[i - 1].Bitmap?
    requires Sections4(m.secs[..i]) == Sections4(m.secs[..k])
    ensures !m.secs[k - 1].Bitmap?
  {
    hide Sections4, Formed, Ordered;
    if m.secs[k - 1].Bitmap? {
      var p := MapOfField(m, k - 1);
      MapAfterRepresentation(m, i - 1);
      CountMonotone(m.secs, i, p);
      CountMonotone(m.secs, p + 1, k);
      CountSnoc(m.secs, p);
    }
  }

  lemma {:induction false} MapAfterRepresentation(m: Msg, j: nat)
    requires Ordered(m) && j < |m.secs| && m.secs[j].Bitmap?
    ensures j >= 1 && m.secs[j - 1].DataRepresentation?
  {
    assert j >= 1 && Follows(Number(m.secs[j - 1]), Number(m.secs[j]));
  }

  lemma {:induction false} NoMapYet(m: Msg, k: nat)
    requires Ordered(m) && k <= |m.secs| && Sections4(m.secs[..k]) == 0
    ensures !HasMap(m.secs[..k])
  {
    hide Sections4, Formed, Ordered;
    if i :| 0 <= i < k && m.secs[..k][i].Bitmap? {
      var p := MapOfField(m, i);
      CountSnoc(m.secs, p);
      CountMonotone(m.secs, i, k);
    }
  }

  /**
   * The indicator returned without unpacking: the field's own if it is the first, the previous
   * field's otherwise.  So it is the field's own if and only if it is the first or the previous
   * field has the same.
   */
  lemma {:induction false} IndicatorReturned(m: Msg, k: nat) returns (j: nat)
    requires Ordered(m) && FieldAt(m.secs, k)
    ensures Sections4(m.secs[..k + 1]) == 1 ==> HeaderRecord(m.secs, k).ibmap == m.secs[k + 2].ibmap
    ensures Sections4(m.secs[..k + 1]) != 1 ==>
      && FieldAt(m.secs, j) && Sections4(m.secs[..j + 1]) == Sections4(m.secs[..k + 1]) - 1
      && HeaderRecord(m.secs, k).ibmap == m.secs[j + 2].ibmap
    ensures HeaderRecord(m.secs, k).ibmap == m.secs[k + 2].ibmap <==>
      Sections4(m.secs[..k + 1]) == 1 || m.secs[j + 2].ibmap == m.secs[k + 2].ibmap
  {
    hide Sections4, Formed, Ordered, LatestMap, HasMap, LatestGrid, LatestLocal;
    CountSnoc(m.secs, k);
    if Sections4(m.secs[..k]) == 0 {
      NoMapYet(m, k);
      j := k;
    } else {
      j := FieldBefore(m, k);
    }
  }

  /** The same of the octet array that the builder left. */
  method GetBuiltField(cgrib: array<byte>, other: Unpacker, q: Request, ghost m: Msg, ghost k: nat,
                       ghost data: seq<real>)
    returns (o: Outcome)
    requires Stands(cgrib, m) && Ordered(m) && Readable(m.secs, q.unpack)
    requires FieldAt(m.secs, k) && Sections4(m.secs[..k + 1]) == q.ifldnum
    requires q.unpack ==> Unpacks(AnyTemplate(other), m.secs, k, data)
    ensures o == Returns(m.secs, k, q, data)
  {
    hide Bits, MsgBits, Total, Ordered, Readable, Sections4, FieldRecord, Unpacks, GetFldOutcome, Formed, Ends,
         Dangling, HeaderRecord, AnyTemplate;
    FieldReturned(cgrib[..], m, AnyTemplate(other), q, k, data);
    EndsExactly(cgrib[..], AnyTemplate(other), q);
    o := GetFld(cgrib, other, q);
  }

  /** What a request for the field at section k returns. */
  ghost function Returns(cs: seq<section>, k: nat, q: Request, data: seq<real>): (o: Outcome)
    requires FieldAt(cs, k)
  {
    hide Dangling, FieldRecord, HeaderRecord;
    if !q.unpack then Found(HeaderRecord(cs, k))
    else if exists j :: 0 <= j < k + 3 && Dangling(cs, j) then Error(17)
    else Found(FieldRecord(cs, k, q.expand, data))
  }

  lemma {:induction false} FieldReturned(a: seq<byte>, m: Msg, unp: Unpacker, q: Request, k: nat, data: seq<real>)
    requires Starts(Bits(a), m) && Ordered(m) && Readable(m.secs, q.unpack)
    requires FieldAt(m.secs, k) && Sections4(m.secs[..k + 1]) == q.ifldnum
    requires q.unpack ==> Unpacks(unp, m.secs, k, data)
    ensures GetFldOutcome(a, unp, q) == Returns(m.secs, k, q, data)
  {
    hide Bits, Ordered, Readable, Sections4, FieldRecord, Unpacks, GetFldOutcome, Formed, Dangling,
         HeaderRecord, Starts;
    if q.unpack { ReadExactly(a, m, unp, q, k, data); } else { HeaderIsRead(a, m, unp, q, k); }
  }

  // ----- whole runs of the builder

  /** The n-th field of a built message is the one that the n-th accepted call gave. */
  lemma {:induction false} NthField(m: Msg, calls: seq<Call>, n: nat) returns (k: nat, i: nat)
    requires Ordered(m) && AllSane(calls)
    requires Sections4(m.secs) < n <= Sections4(m.secs) + AcceptedFields(m, calls)
    ensures i < |calls| && calls[i].AddField? && Known(Product, calls[i].pnum) && Known(Representation, calls[i].dnum)
    ensures calls[i].packing.Done? && Sections4(m.secs) + AcceptedFields(m, calls[..i]) == n - 1
    ensures var cs := Run(m, calls).secs;
      && k + 4 <= |cs| && cs[k..k + 4] == [ProductContent(calls[i])] + FieldContents(calls[i])
      && Sections4(cs[..k + 1]) == n
    decreases |calls|
  {
    hide Sane, Ordered, LooksComplete, ProductContent, FieldContents, Lookup, HasBitmap, Sections4, Formed, LastNumber;
    var m1 := After(m, calls[0]);
    CallKeepsOrder(m, calls[0]);
    CallCounts(m, calls[0]);
    if Sections4(m1.secs) >= n {
      k, i := |m.secs|, 0;
      assert calls[..0] == [];
      var cs, p, f := Run(m1, calls[1..]).secs, ProductContent(calls[0]), FieldContents(calls[0]);
      RunExtends(m1, calls[1..]);
      assert m1.secs == m.secs + ([p] + f);
      assert cs[k..k + 4] == m1.secs[k..k + 4] == [p] + f;
      assert cs[..k + 1] == m.secs + [p];
      CountConcat(m.secs, [p]);
      CountOne(p);
    } else {
      k, i := NthField(m1, calls[1..], n);
      i := i + 1;
      assert calls[..i][1..] == calls[1..][..i - 1];
    }
  }

  /**
   * Any run of the builder, then `g2_getfld` for field n: the record holds what the n-th accepted
   * call was given, under the latest grid and local section before it.
   */
  lemma {:induction false} RunIsRead(a: seq<byte>, m: Msg, calls: seq<Call>, unp: Unpacker, q: Request,
                                     data: nat -> seq<real>)
    returns (k: nat, i: nat)
    requires Ordered(m) && AllSane(calls) && Starts(Bits(a), Run(m, calls)) && Readable(Run(m, calls).secs, q.unpack)
    requires Sections4(m.secs) < q.ifldnum <= Sections4(m.secs) + AcceptedFields(m, calls)
    requires q.unpack ==> forall k :: FieldAt(Run(m, calls).secs, k) ==>
      Unpacks(unp, Run(m, calls).secs, k, data(k))
    ensures i < |calls| && calls[i].AddField? && Sections4(m.secs) + AcceptedFields(m, calls[..i]) == q.ifldnum - 1
    ensures FieldAt(Run(m, calls).secs, k)
    ensures var cs := Run(m, calls).secs;
      && GetFldOutcome(a, unp, q) == Returns(cs, k, q, data(k))
      && Known(Product, calls[i].pnum) && Known(Representation, calls[i].dnum) && calls[i].packing.Done?
      && cs[k] == ProductContent(calls[i]) && cs[k + 1..k + 4] == FieldContents(calls[i])
  {
    hide Sane, Ordered, Readable, Starts, Unpacks, ProductContent, FieldContents, Lookup, Sections4, Formed,
         GetFldOutcome, Run, AcceptedFields, Bits, Returns;
    k, i := NthField(m, calls, q.ifldnum);
    var cs := Run(m, calls).secs;
    var f := [ProductContent(calls[i])] + FieldContents(calls[i]);
    assert cs[k..k + 4] == f;
    assert cs[k] == f[0] && cs[k + 1] == f[1] && cs[k + 2] == f[2] && cs[k + 3] == f[3];
    assert cs[k + 1..k + 4] == f[1..];
    FieldReturned(a, Run(m, calls), unp, q, k, data(k));
  }

  /**
   * The builder lets a field use a bit map again whenever any was given before; if none is in
   * force any more, the field it accepts cannot be read.
   */
  lemma {:induction false} AcceptedButUnread(a: seq<byte>, m: Msg, call: Call, unp: Unpacker, q: Request)
    requires Ordered(m) && Sane(call) && !LooksComplete(m) && LastNumber(m) in {3, 7} && call.AddField?
    requires call.ibmap == 254
    requires Known(Product, call.pnum) && Known(Representation, call.dnum) && call.packing.Done?
    requires HasBitmap(m.secs) && !exists i :: InForce(m.secs, i)
    ensures Answer(m, call).Got? && Ordered(After(m, call))
    ensures Starts(Bits(a), After(m, call)) && Readable(After(m, call).secs, true) ==>
      q.unpack && q.ifldnum == Sections4(m.secs) + 1 ==>
      GetFldOutcome(a, unp, q) == Error(17)
  {
    hide Bits, Sections4, LooksComplete, ProductContent, FieldContents, HasBitmap, InForce, Starts, Readable,
         GetFldOutcome, Lookup, Tail;
    CallKeepsOrder(m, call);
    if Starts(Bits(a), After(m, call)) && Readable(After(m, call).secs, true) && q.unpack &&
      q.ifldnum == Sections4(m.secs) + 1 {
      var cs, j := After(m, call).secs, |m.secs| + 2;
      UsedAgain(m.secs, call);
      DanglingIsTold(a, After(m, call), unp, q, j);
    }
  }

  lemma {:induction false} UsedAgain(cs: seq<section>, call: Call)
    requires call.AddField? && Sane(call) && call.ibmap == 254 && !exists i :: InForce(cs, i)
    requires Known(Product, call.pnum) && Known(Representation, call.dnum) && call.packing.Done?
    ensures var ds, j := cs + ([ProductContent(call)] + FieldContents(call)), |cs| + 2;
      Dangling(ds, j) && Sections4(ds[..j]) == Sections4(cs) + 1
  {
    hide Sections4, ProductContent, Formed, Used, Lookup, Tail;
    var p, f := ProductContent(call), FieldContents(call);
    var ds, j := cs + ([p] + f), |cs| + 2;
    var d := ds[..j];
    assert d == cs + [p] + [f[0]];
    CountConcat(cs + [p], [f[0]]);
    CountConcat(cs, [p]);
    CountOne(p);
    CountOne(f[0]);
    assert d[|cs|] == p && d[|cs| + 1] == f[0] && cs <= d;
    forall i ensures !InForce(d, i) {
      if InForce(d, i) { InForceBefore(cs, d, i); }
    }
  }

  lemma {:induction false} InForceBefore(cs: seq<section>, ds: seq<section>, i: int)
    requires cs <= ds && InForce(ds, i) && forall l :: |cs| <= l < |ds| ==> !ds[l].Bitmap?
    ensures InForce(cs, i)
  {
    hide Formed;
  }

  // ----- bit maps

  lemma {:induction false} OnesMonotone(bmap: seq<int>, j: nat)
    requires j < |bmap|
    ensures Ones(bmap[..j]) + (if bmap[j] == 1 then 1 else 0) <= Ones(bmap)
  {
    var k := |bmap| - 1;
    if j < k {
      OnesMonotone(bmap[..k], j);
      assert bmap[..k][..j] == bmap[..j];
    }
  }

  /** Each point whose bit is 1 gets the datum of its rank, every other point 0. */
  lemma {:induction false} ExpandAt(bmap: seq<int>, fld: seq<real>, n: nat, j: nat)
    requires j < n && j < |bmap| && |fld| == Ones(bmap)
    ensures bmap[j] == 1 ==> Ones(bmap[..j]) < |fld| && Expand(bmap, fld, n)[j] == fld[Ones(bmap[..j])]
    ensures bmap[j] != 1 ==> Expand(bmap, fld, n)[j] == 0.0
  {
    OnesMonotone(bmap, j);
    ExpandPoint(bmap, fld, n, j);
  }

  lemma {:induction false} ExpandPoint(bmap: seq<int>, fld: seq<real>, n: nat, j: nat)
    requires j < n
    ensures Expand(bmap, fld, n)[j] ==
      if j < |bmap| && bmap[j] == 1 && Ones(bmap[..j]) < |fld| then fld[Ones(bmap[..j])] else 0.0
  {
    if j < n - 1 { ExpandPoint(bmap, fld, n - 1, j); }
  }

  lemma {:induction false} KeptAt(bmap: seq<int>, fld: seq<real>, j: nat)
    requires j < |bmap| == |fld| && bmap[j] == 1
    ensures Ones(bmap[..j]) < Ones(bmap) && Kept(bmap, fld)[Ones(bmap[..j])] == fld[j]
  {
    OnesMonotone(bmap, j);
    var k := |bmap| - 1;
    if j < k {
      KeptAt(bmap[..k], fld[..k], j);
      assert bmap[..k][..j] == bmap[..j];
    }
  }

  /** Expanding what was contracted restores the field at the 1s of the bit map, and is 0 elsewhere. */
  lemma {:induction false} ExpandContracted(bmap: seq<int>, fld: seq<real>, n: nat, j: nat)
    requires j < n <= |bmap| == |fld|
    ensures Expand(bmap, Kept(bmap, fld), n)[j] == if bmap[j] == 1 then fld[j] else 0.0
  {
    hide Expand, Kept, Ones;
    ExpandAt(bmap, Kept(bmap, fld), n, j);
    if bmap[j] == 1 { KeptAt(bmap, fld, j); }
  }
}
