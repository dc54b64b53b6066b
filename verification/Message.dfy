/**
 * A GRIB2 message under construction: the order in which sections may follow one another, the
 * octets, and how each call of the builder answers.
 */
module Message {
  import opened Options
  import opened Shifts
  import opened BitString
  import opened Templates
  import opened SectionFormat
  import opened Sections

  /** Discipline, sections 1 to 7 in order, and whether the end section is there. */
  datatype Msg = Msg(disc: int, secs: seq<section>, ended: bool)

  // ----- octets

  ghost function AllBits(cs: seq<section>): (s: seq<bit>)
    ensures |s| == 8 * AllOctets(cs)
  {
    if cs == [] then [] else SectionBits(cs[0]) + AllBits(cs[1..])
  }

  ghost function AllOctets(cs: seq<section>): (n: nat)
  {
    if cs == [] then 0 else Octets(cs[0]) + AllOctets(cs[1..])
  }

  const GRIB: seq<byte> := [0x47, 0x52, 0x49, 0x42]
  const SEVENS: seq<byte> := [0x37, 0x37, 0x37, 0x37]

  ghost function HeadBits(disc: int): (s: seq<bit>)
    ensures |s| == 96
  {
    Bits(GRIB) + Enc(0, 16) + Enc(disc, 8) + Enc(2, 8) + Enc(0, 32)
  }

  ghost function EndBits(ended: bool): (s: seq<bit>)
    ensures |s| == if ended then 32 else 0
  {
    if ended then Bits(SEVENS) else []
  }

  ghost function Total(m: Msg): (n: nat)
  {
    16 + AllOctets(m.secs) + if m.ended then 4 else 0
  }

  /** Section 0 with the total length, the sections, and the end section if there is one. */
  ghost function MsgBits(m: Msg): (s: seq<bit>)
    ensures |s| == 8 * Total(m)
  {
    HeadBits(m.disc) + Enc(Total(m), 32) + AllBits(m.secs) + EndBits(m.ended)
  }

  lemma {:induction false} AllConcat(a: seq<section>, b: seq<section>)
    ensures AllBits(a + b) == AllBits(a) + AllBits(b) && AllOctets(a + b) == AllOctets(a) + AllOctets(b)
  {
    hide SectionBits, Octets;
    if a == [] {
      assert a + b == b;
      assert [] + AllBits(b) == AllBits(b);
    } else {
      AllConcat(a[1..], b);
      TailOfConcat(a, b);
      assert (a + b)[0] == a[0];
      Assoc(SectionBits(a[0]), AllBits(a[1..]), AllBits(b));
    }
  }

  lemma {:induction false} AllOne(c: section)
    ensures AllBits([c]) == SectionBits(c) && AllOctets([c]) == Octets(c)
  {
    hide SectionBits, Octets;
    assert [c][1..] == [];
    assert SectionBits(c) + [] == SectionBits(c);
  }

  // ----- order

  /** Section b may come right after section a. */
  predicate Follows(a: nat, b: nat)
  {
    match a
    case 1 => b == 2 || b == 3
    case 2 => b == 3
    case 3 => b == 4
    case 4 => b == 5
    case 5 => b == 6
    case 6 => b == 7
    case 7 => b == 2 || b == 3 || b == 4
    case _ => false
  }

  /**
   * Section 1, then any number of rounds that start from section 2, 3 or 4 and, but for the
   * round that is being written, end with section 7; the end section only after section 7.
   */
  ghost predicate Ordered(m: Msg)
  {
    && m.secs != [] && m.secs[0].Identification?
    && (forall i :: 0 < i < |m.secs| ==> Follows(Number(m.secs[i - 1]), Number(m.secs[i])))
    && LastNumber(m) in {1, 2, 3, 7}
    && (m.ended ==> LastNumber(m) == 7)
  }

  /** The message with its end section. */
  ghost function Finished(m: Msg): (m': Msg)
  {
    Msg(m.disc, m.secs, true)
  }

  ghost function LastNumber(m: Msg): (n: nat)
    requires m.secs != []
  {
    Number(m.secs[|m.secs| - 1])
  }

  /** The builder takes a message for complete when its last four octets are "7777". */
  ghost predicate LooksComplete(m: Msg)
  {
    MsgBits(m)[8 * Total(m) - 32..] == Bits(SEVENS)
  }

  lemma {:induction false} EndedLooksComplete(m: Msg)
    requires m.ended
    ensures LooksComplete(m)
  {
    hide AllBits, HeadBits, Enc;
  }

  // ----- calls

  /** What packing the field came to. */
  datatype Packing = Unimplemented | NotSpectral | Failed | Done(dtmpl: seq<int>, cpack: seq<byte>)

  datatype Call =
    | AddLocal(octets: seq<byte>)
    | AddGrid(igds: seq<int>, gtmpl: seq<int>, deflist: seq<int>)
    | AddField(pnum: int, ptmpl: seq<int>, coords: seq<int>, dnum: int, packing: Packing,
               ngrdpts: nat, ibmap: int, bmap: seq<int>)
    | End

  ghost predicate Enough(kind: Kind, number: int, vs: seq<int>)
  {
    Known(kind, number) ==>
      && |vs| >= |Lookup(kind, number).value.map_|
      && |vs| >= |Lookup(kind, number).value.map_| + |Tail(kind, number, vs)|
  }

  /** The arrays passed are as long as the entries that say so. */
  ghost predicate Sane(call: Call)
  {
    match call
    case AddLocal(_) => true
    case AddGrid(igds, gtmpl, _) => |igds| == 5 && igds[2] >= 0 && (igds[0] == 0 ==> Enough(Grid, igds[4], gtmpl))
    case AddField(pnum, ptmpl, _, dnum, packing, ngrdpts, ibmap, bmap) =>
      && Enough(Product, pnum, ptmpl) && (packing.Done? ==> Enough(Representation, dnum, packing.dtmpl))
      && (ibmap == 0 || ibmap == 254 ==> |bmap| == ngrdpts)
    case End => true
  }

  /** The part of a list that its template uses. */
  ghost function Used(kind: Kind, number: int, vs: seq<int>): (r: seq<int>)
    requires Known(kind, number) && Enough(kind, number, vs)
    ensures Complete(kind, number, r)
  {
    var n := |Lookup(kind, number).value.map_|;
    var r := vs[..n + |Tail(kind, number, vs)|];
    TailFromStatic(kind, number, vs);
    TailFromStatic(kind, number, r);
    assert r[..n] == vs[..n];
    r
  }

  ghost function GridContent(igds: seq<int>, gtmpl: seq<int>, deflist: seq<int>): (c: section)
    requires |igds| == 5 && igds[2] >= 0 && (igds[0] == 0 ==> Known(Grid, igds[4]) && Enough(Grid, igds[4], gtmpl))
    ensures c.GridDefinition?
  {
    GridDefinition(igds, if igds[0] == 0 then Used(Grid, igds[4], gtmpl) else [], if igds[2] == 0 then [] else deflist)
  }

  function Ones(bmap: seq<int>): (n: nat)
  {
    if bmap == [] then 0 else Ones(bmap[..|bmap| - 1]) + if bmap[|bmap| - 1] == 1 then 1 else 0
  }

  function Points(ngrdpts: nat, ibmap: int, bmap: seq<int>): (n: nat)
  {
    if ibmap == 0 || ibmap == 254 then Ones(bmap) else ngrdpts
  }

  /** A bit map that a later field may refer to. */
  ghost predicate HasBitmap(cs: seq<section>)
  {
    exists i :: 0 <= i < |cs| && cs[i].Bitmap? && Low(cs[i].ibmap, 8) <= 253
  }

  ghost function ProductContent(call: Call): (c: section)
    requires call.AddField? && Sane(call) && Known(Product, call.pnum)
    ensures c.ProductDefinition?
  {
    ProductDefinition(call.pnum, Used(Product, call.pnum, call.ptmpl), call.coords)
  }

  /** Sections 5, 6 and 7 of a field. */
  ghost function FieldContents(call: Call): (cs: seq<section>)
    requires call.AddField? && Sane(call) && Known(Representation, call.dnum) && call.packing.Done?
    ensures |cs| == 3 && cs[0].DataRepresentation? && cs[1].Bitmap? && cs[2].Data?
  {
    [DataRepresentation(Points(call.ngrdpts, call.ibmap, call.bmap), call.dnum,
                        Used(Representation, call.dnum, call.packing.dtmpl)),
     Bitmap(call.ibmap, if call.ibmap == 0 then call.bmap else []),
     Data(call.packing.cpack)]
  }

  ghost function AnswerGrid(m: Msg, call: Call): (r: Got<seq<section>>)
    requires m.secs != [] && call.AddGrid? && Sane(call)
  {
    hide Lookup, Tail, GridContent;
    if LastNumber(m) !in {1, 2, 7} then Bad(-4)
    else if call.igds[0] == 0 && !Known(Grid, call.igds[4]) then Bad(-5)
    else Got([GridContent(call.igds, call.gtmpl, call.deflist)])
  }

  ghost function AnswerField(m: Msg, call: Call): (r: Got<seq<section>>)
    requires m.secs != [] && call.AddField? && Sane(call)
  {
    hide Lookup, Tail, ProductContent, FieldContents, HasBitmap;
    if LastNumber(m) !in {3, 7} then Bad(-4)
    else if !Known(Product, call.pnum) || !Known(Representation, call.dnum) then Bad(-5)
    else match call.packing
      case Unimplemented => Bad(-7)
      case NotSpectral => Bad(-9)
      case Failed => Bad(-10)
      case Done(_, _) =>
        if call.ibmap == 254 && !HasBitmap(m.secs) then Bad(-8) else Got([ProductContent(call)] + FieldContents(call))
  }

  /** The sections a call adds, or the error it returns. */
  ghost function Answer(m: Msg, call: Call): (r: Got<seq<section>>)
    requires Ordered(m) && Sane(call)
  {
    hide LooksComplete, AnswerGrid, AnswerField, Sane, Follows;
    if !call.End? && LooksComplete(m) then Bad(-2) else
    match call
    case AddLocal(octets) => if LastNumber(m) !in {1, 7} then Bad(-4) else Got([Local(octets)])
    case AddGrid(_, _, _) => AnswerGrid(m, call)
    case AddField(_, _, _, _, _, _, _, _) => AnswerField(m, call)
    case End => if m.ended then Bad(-3) else if LastNumber(m) != 7 then Bad(-4) else Got([])
  }

  ghost function After(m: Msg, call: Call): (m': Msg)
    requires Ordered(m) && Sane(call)
  {
    hide Sane, Answer;
    var r := Answer(m, call);
    if r.Bad? then m else Msg(m.disc, m.secs + r.value, m.ended || call.End?)
  }

  /** What a call returns: the new total length, or the error. */
  ghost function Returned(m: Msg, call: Call): (n: int)
    requires Ordered(m) && Sane(call)
  {
    var r := Answer(m, call);
    if r.Bad? then r.ierr else Total(After(m, call))
  }

  // ----- what every call keeps

  lemma {:induction false} AddedInOrder(m: Msg, cs: seq<section>)
    requires Ordered(m) && !m.ended && cs != []
    requires Follows(LastNumber(m), Number(cs[0]))
    requires forall i :: 0 < i < |cs| ==> Follows(Number(cs[i - 1]), Number(cs[i]))
    requires Number(cs[|cs| - 1]) in {1, 2, 3, 7}
    ensures Ordered(Msg(m.disc, m.secs + cs, false))
  {
    hide Follows;
    var all, n := m.secs + cs, |m.secs|;
    forall i | 0 < i < |all| ensures Follows(Number(all[i - 1]), Number(all[i])) {
      if i > n { assert all[i - 1] == cs[i - 1 - n] && all[i] == cs[i - n]; }
    }
    assert all[|all| - 1] == cs[|cs| - 1];
  }

  /** Every call, accepted or not, leaves a properly ordered message. */
  lemma {:induction false} CallKeepsOrder(m: Msg, call: Call)
    requires Ordered(m) && Sane(call)
    ensures Ordered(After(m, call))
  {
    hide LooksComplete, GridContent, ProductContent, FieldContents, Lookup, Tail, Used;
    if m.ended { EndedLooksComplete(m); }
    var r := Answer(m, call);
    if r.Got? {
      if call.End? {
        assert m.secs + [] == m.secs;
      } else {
        AddedInOrder(m, r.value);
      }
    }
  }

  // ----- when a call is accepted

  /** The number of the first section that a call is to write. */
  ghost function Opens(call: Call): (n: nat)
  {
    match call
    case AddLocal(_) => 2
    case AddGrid(_, _, _) => 3
    case AddField(_, _, _, _, _, _, _, _) => 4
    case End => 8
  }

  /** The order lets the call's first section come next: the end section after section 7, once. */
  ghost predicate InTurn(m: Msg, call: Call)
    requires m.secs != []
  {
    if call.End? then LastNumber(m) == 7 && !m.ended else Follows(LastNumber(m), Opens(call))
  }

  /** The call's templates are known, its field was packed, and there is a bit map where it reuses one. */
  ghost predicate Fillable(m: Msg, call: Call)
    requires Sane(call)
  {
    hide Known, HasBitmap, Enough;
    match call
    case AddGrid(igds, _, _) => igds[0] == 0 ==> Known(Grid, igds[4])
    case AddField(pnum, _, _, dnum, packing, _, ibmap, _) =>
      && Known(Product, pnum) && Known(Representation, dnum) && packing.Done?
      && (ibmap == 254 ==> HasBitmap(m.secs))
    case _ => true
  }

  /**
   * A call is accepted exactly when the message is not taken for complete, the order allows its
   * first section next and it can be filled in; -2, -3 and -4 tell which of the first two fails.
   */
  lemma {:induction false} AnsweredExactly(m: Msg, call: Call)
    requires Ordered(m) && Sane(call)
    ensures Answer(m, call).Got? <==>
      (call.End? || !LooksComplete(m)) && InTurn(m, call) && Fillable(m, call)
    ensures Answer(m, call) == Bad(-2) <==> !call.End? && LooksComplete(m)
    ensures Answer(m, call) == Bad(-3) <==> call.End? && m.ended
    ensures Answer(m, call) == Bad(-4) <==> !InTurn(m, call) && if call.End? then !m.ended else !LooksComplete(m)
    ensures Answer(m, call) in {Bad(-5), Bad(-7), Bad(-8), Bad(-9), Bad(-10)} <==>
      (call.End? || !LooksComplete(m)) && InTurn(m, call) && !Fillable(m, call)
  {
    hide LooksComplete, GridContent, ProductContent, FieldContents, Lookup, Tail, Used, Known, HasBitmap, Enough, Sane;
    assert LastNumber(m) in {1, 2, 3, 7};
  }

  // ----- whole runs

  ghost predicate AllSane(calls: seq<Call>)
  {
    forall i :: 0 <= i < |calls| ==> Sane(calls[i])
  }

  ghost function Run(m: Msg, calls: seq<Call>): (m': Msg)
    requires Ordered(m) && AllSane(calls)
    ensures Ordered(m')
    decreases |calls|
  {
    hide Sane, After, Ordered;
    if calls == [] then m else
    CallKeepsOrder(m, calls[0]);
    Run(After(m, calls[0]), calls[1..])
  }

  function Sections4(cs: seq<section>): (n: nat)
  {
    if cs == [] then 0 else (if cs[0].ProductDefinition? then 1 else 0) + Sections4(cs[1..])
  }

  function Sections2(cs: seq<section>): (n: nat)
  {
    if cs == [] then 0 else (if cs[0].Local? then 1 else 0) + Sections2(cs[1..])
  }

  lemma {:induction false} CountConcat(a: seq<section>, b: seq<section>)
    ensures Sections4(a + b) == Sections4(a) + Sections4(b) && Sections2(a + b) == Sections2(a) + Sections2(b)
  {
    if a == [] {
      assert a + b == b;
    } else {
      CountConcat(a[1..], b);
      TailOfConcat(a, b);
    }
  }

  ghost function AcceptedFields(m: Msg, calls: seq<Call>): (n: nat)
    requires Ordered(m) && AllSane(calls)
    decreases |calls|
  {
    hide Sane, Answer, After, Ordered;
    if calls == [] then 0 else
    CallKeepsOrder(m, calls[0]);
    (if calls[0].AddField? && Answer(m, calls[0]).Got? then 1 else 0) + AcceptedFields(After(m, calls[0]), calls[1..])
  }

  ghost function AcceptedLocals(m: Msg, calls: seq<Call>): (n: nat)
    requires Ordered(m) && AllSane(calls)
    decreases |calls|
  {
    hide Sane, Answer, After, Ordered;
    if calls == [] then 0 else
    CallKeepsOrder(m, calls[0]);
    (if calls[0].AddLocal? && Answer(m, calls[0]).Got? then 1 else 0) + AcceptedLocals(After(m, calls[0]), calls[1..])
  }

  lemma {:induction false} CountOne(c: section)
    ensures Sections4([c]) == (if c.ProductDefinition? then 1 else 0) && Sections2([c]) == if c.Local? then 1 else 0
  {
    assert [c][1..] == [];
  }

  lemma {:induction false} CountField(p: section, cs: seq<section>)
    requires p.ProductDefinition? && |cs| == 3 && cs[0].DataRepresentation? && cs[1].Bitmap? && cs[2].Data?
    ensures Sections4([p] + cs) == 1 && Sections2([p] + cs) == 0
  {
    hide Formed, Sections4, Sections2;
    var a, b, c := [cs[0]], [cs[1]], [cs[2]];
    assert cs == a + (b + c);
    CountConcat([p], cs);
    CountConcat(a, b + c);
    CountConcat(b, c);
    CountOne(p);
    CountOne(cs[0]);
    CountOne(cs[1]);
    CountOne(cs[2]);
  }

  lemma {:induction false} CallCounts(m: Msg, call: Call)
    requires Ordered(m) && Sane(call)
    ensures Sections4(After(m, call).secs) == Sections4(m.secs) +
      (if call.AddField? && Answer(m, call).Got? then 1 else 0)
    ensures Sections2(After(m, call).secs) == Sections2(m.secs) +
      (if call.AddLocal? && Answer(m, call).Got? then 1 else 0)
  {
    hide Ordered, LooksComplete, Lookup, Tail, ProductContent, FieldContents, GridContent, Sections2, Sections4,
         HasBitmap;
    var r := Answer(m, call);
    if r.Got? {
      CountConcat(m.secs, r.value);
      if call.AddField? {
        CountField(ProductContent(call), FieldContents(call));
      } else if !call.End? {
        CountOne(r.value[0]);
      } else {
        assert m.secs + [] == m.secs;
      }
    }
  }

  /** Over any run, the fields and local sections are those of the accepted calls. */
  lemma {:induction false} RunCounts(m: Msg, calls: seq<Call>)
    requires Ordered(m) && AllSane(calls)
    ensures Sections4(Run(m, calls).secs) == Sections4(m.secs) + AcceptedFields(m, calls)
    ensures Sections2(Run(m, calls).secs) == Sections2(m.secs) + AcceptedLocals(m, calls)
    decreases |calls|
  {
    hide Answer, After, Sane, Ordered;
    if calls != [] {
      CallKeepsOrder(m, calls[0]);
      CallCounts(m, calls[0]);
      RunCounts(After(m, calls[0]), calls[1..]);
    }
  }

  /** No call changes a section that is there, nor the discipline. */
  lemma {:induction false} RunExtends(m: Msg, calls: seq<Call>)
    requires Ordered(m) && AllSane(calls)
    ensures m.secs <= Run(m, calls).secs && Run(m, calls).disc == m.disc
    decreases |calls|
  {
    hide Sane, Ordered, Answer;
    if calls != [] {
      CallKeepsOrder(m, calls[0]);
      RunExtends(After(m, calls[0]), calls[1..]);
    }
  }
}
