/** The values given to `g2_addfield` come back from `g2_getfld`. */
module DataAgreement {
  import opened Options
  import opened Shifts
  import opened BitString
  import opened Templates
  import opened SectionFormat
  import opened Sections
  import opened Message
  import opened MessageBuilder
  import opened MessageWalk
  import opened MessageAgreement
  import opened SimplePacking
  import opened ComplexScaling
  import opened DataSection

  /** The points that are packed: all, or those at the 1s of the bit map. */
  ghost function PointsGiven(call: Call, fld: seq<real>): (pf: seq<real>)
    requires call.AddField? && |fld| == call.ngrdpts && Sane(call)
    ensures |pf| == Points(call.ngrdpts, call.ibmap, call.bmap)
  {
    hide Lookup, Tail;
    if call.ibmap == 0 || call.ibmap == 254 then Kept(call.bmap, fld) else fld
  }

  /** The entries of the template that are stored. */
  ghost function EntriesGiven(call: Call): (tmpl: seq<int>)
    requires call.AddField? && Sane(call) && call.packing.Done? && Known(Representation, call.dnum)
  {
    hide Lookup, Tail, Used;
    Used(Representation, call.dnum, call.packing.dtmpl)
  }

  /** The call's template entries and octets are what a packing routine made of the field's points. */
  ghost predicate FieldGiven(call: Call, fld: seq<real>, p: Packer)
    requires call.AddField? && Sane(call) && call.packing.Done? && Known(Representation, call.dnum)
  {
    hide PackedAs, EntriesGiven;
    && |fld| == call.ngrdpts && PointsGiven(call, fld) != []
    && PackedAs(PointsGiven(call, fld), p, call.dnum, EntriesGiven(call), call.packing.cpack)
  }

  lemma {:induction false} ReadAlways(other: Unpacker, repr: DataRecord, cpack: seq<byte>, out: seq<real>,
                                      grid: Option<GridRecord>)
    requires Reads(repr, cpack, out) && repr.dnum in {0, 2, 3}
    ensures GivesAlways(AnyTemplate(other), grid, repr, SectionBits(Seven(cpack)), out)
  {
    hide Unpack7, AnyTemplate, SectionBits, Seven, Formed;
    var e := SectionBits(Seven(cpack));
    forall s | e <= s ensures Gives(AnyTemplate(other), grid, repr, s, out) {
      assert s == e + s[|e|..];
      AnyTemplateIs(other, grid, Some(repr), s);
    }
  }

  /** Reading back, whichever routine it was. */
  lemma {:induction false} GivenIsRead(pf: seq<real>, p: Packer, dnum: int, tmpl: seq<int>, cpack: seq<byte>)
    returns (out: seq<real>)
    requires pf != [] && PackedAs(pf, p, dnum, tmpl, cpack) && Octets(Seven(cpack)) < Pow2(32)
    ensures Gained(out, pf, p, tmpl) && Reads(DataRecord(|pf|, dnum, tmpl), cpack, out) && dnum in {0, 2, 3}
  {
    hide SimplyWith, ComplexlyWith, Octets, Pow2, Reads, Gained, Seven;
    if p.Simply? { out := SimplyRead(pf, p, tmpl, cpack); } else { out := ComplexlyRead(pf, p, tmpl, cpack); }
  }

  lemma {:induction false} FieldUnpacks(other: Unpacker, cs: seq<section>, k: nat, call: Call, fld: seq<real>,
                                        p: Packer)
    returns (out: seq<real>)
    requires FieldAt(cs, k) && call.AddField? && Sane(call) && call.packing.Done? && Known(Representation, call.dnum)
    requires cs[k + 1..k + 4] == FieldContents(call) && FieldGiven(call, fld, p) && Octets(cs[k + 3]) < Pow2(32)
    ensures Unpacks(AnyTemplate(other), cs, k, out) && Gained(out, PointsGiven(call, fld), p, EntriesGiven(call))
  {
    hide PackedAs, Octets, Pow2, Reads, Gained, AnyTemplate, Formed, Lookup, Tail, Used, SectionBits, LatestGrid,
         GivesAlways, Kept, Points;
    var f := FieldContents(call);
    assert cs[k + 1] == f[0] && cs[k + 3] == f[2];
    var pf, tmpl, cpack := PointsGiven(call, fld), EntriesGiven(call), call.packing.cpack;
    out := GivenIsRead(pf, p, call.dnum, tmpl, cpack);
    ReadAlways(other, DataRecord(|pf|, call.dnum, tmpl), cpack, out, LatestGrid(cs[..k]));
  }

  // ----- on the grid

  /** The field came back on the grid, or at the 1s of the bit map when it was not to be expanded; 0 elsewhere. */
  ghost predicate FieldBack(g: seq<real>, fld: seq<real>, b: Option<seq<int>>, expand: bool, x: Missing, h: real)
  {
    if b.None? then Restored(g, fld, x, h)
    else if |b.value| != |fld| then false
    else if !expand then Restored(g, Kept(b.value, fld), x, h)
    else
      && |g| == |fld|
      && forall j :: 0 <= j < |fld| ==>
           if b.value[j] == 1 then PointBack(g[j], fld[j], x, h) else g[j] == 0.0
  }

  lemma {:induction false} OneAt(b: seq<int>, r: nat) returns (j: nat)
    requires r < Ones(b)
    ensures j < |b| && b[j] == 1 && Ones(b[..j]) == r
  {
    var k := |b| - 1;
    if r < Ones(b[..k]) {
      j := OneAt(b[..k], r);
      assert b[..k][..j] == b[..j];
    } else {
      j := k;
    }
  }

  /** The grid that the data are spread over has to have as many points as the field had. */
  lemma {:induction false} ExpandedBack(out: seq<real>, fld: seq<real>, b: seq<int>, n: nat, x: Missing, h: real)
    requires |b| == |fld| && |out| == Ones(b)
    ensures FieldBack(Expand(b, out, n), fld, Some(b), true, x, h) <==>
      n == |fld| && Restored(out, Kept(b, fld), x, h)
  {
    hide Expand, Kept, Ones, PointBack;
    var g, pf := Expand(b, out, n), Kept(b, fld);
    if n != |fld| { return; }
    forall j | 0 <= j < |fld|
      ensures b[j] != 1 ==> g[j] == 0.0
      ensures b[j] == 1 ==> Ones(b[..j]) < |out| && g[j] == out[Ones(b[..j])] && pf[Ones(b[..j])] == fld[j]
    {
      ExpandAt(b, out, n, j);
      if b[j] == 1 { KeptAt(b, fld, j); }
    }
    if FieldBack(g, fld, Some(b), true, x, h) {
      forall r | 0 <= r < |pf| ensures PointBack(out[r], pf[r], x, h) {
        var j := OneAt(b, r);
        assert PointBack(g[j], fld[j], x, h);
      }
    }
  }

  // ----- whole runs

  /** Every field packed with a template that is modelled came from a packing routine. */
  ghost predicate AllGiven(calls: seq<Call>, flds: seq<seq<real>>, ps: seq<Packer>)
    requires |flds| == |ps| == |calls| && AllSane(calls)
  {
    hide FieldGiven, Sane, Lookup;
    forall i :: 0 <= i < |calls| && calls[i].AddField? && calls[i].packing.Done? && calls[i].dnum in {0, 2, 3} ==>
      Known(Representation, calls[i].dnum) ==> FieldGiven(calls[i], flds[i], ps[i])
  }

  /** Data spread by a bit map need a grid of as many points as the field had. */
  ghost predicate OnGrid(cs: seq<section>, call: Call, expand: bool)
    requires call.AddField?
  {
    hide LatestGrid;
    expand && (call.ibmap == 0 || call.ibmap == 254) ==> GridPoints(LatestGrid(cs)) == call.ngrdpts
  }

  /** What the record holds of a field that was packed as given. */
  lemma {:induction false} RecordBack(cs: seq<section>, k: nat, call: Call, fld: seq<real>, p: Packer, expand: bool,
                                      out: seq<real>)
    requires FieldAt(cs, k) && call.AddField? && Sane(call) && call.packing.Done? && Known(Representation, call.dnum)
    requires cs[k + 1..k + 4] == FieldContents(call) && |fld| == call.ngrdpts && |out| == |PointsGiven(call, fld)|
    requires call.ibmap == 254 ==> LatestMap(cs[..k]).1 == Some(call.bmap)
    ensures var b, g := LatestMap(cs[..k + 3]).1, FieldRecord(cs, k, expand, out).fld;
      && g.Some?
      && forall x, h :: FieldBack(g.value, fld, b, expand, x, h) <==>
           OnGrid(cs[..k], call, expand) && Restored(out, PointsGiven(call, fld), x, h)
  {
    hide Formed, Lookup, Tail, Used, LatestGrid, LatestLocal, LatestMap, Kept, Expand, Restored, Ids, GridPoints;
    var f := FieldContents(call);
    assert cs[k + 2] == f[1];
    FieldStays(cs, k);
    var b, n := LatestMap(cs[..k + 3]).1, GridPoints(LatestGrid(cs[..k]));
    if b.Some? && expand {
      forall x, h
        ensures FieldBack(Expand(b.value, out, n), fld, b, true, x, h) <==>
          n == |fld| && Restored(out, PointsGiven(call, fld), x, h)
      {
        ExpandedBack(out, fld, b.value, n, x, h);
      }
    }
  }

  /**
   * The values in the record: those given, to within half a step and what the stored reference is
   * off, if the packing was faithful and the grid has room for just them; and only then, to within
   * half a step, if the reference is stored exactly.  The bit map in force must be the call's.
   */
  ghost predicate BackFor(cs: seq<section>, k: nat, call: Call, fld: seq<real>, p: Packer, expand: bool, out: seq<real>)
    requires FieldAt(cs, k) && call.AddField? && Sane(call) && call.packing.Done? && Known(Representation, call.dnum)
  {
    hide LatestMap, FieldRecord, EntriesGiven, PointsGiven, Sane, Lookup, GridBack;
    var g := FieldRecord(cs, k, expand, out).fld;
    && g.Some? && |fld| == call.ngrdpts && PointsGiven(call, fld) != [] && |EntriesGiven(call)| >= 3
    && (call.ibmap != 254 || LatestMap(cs[..k]).1 == Some(call.bmap) ==>
          GridBack(g.value, cs, k, call, fld, p, EntriesGiven(call), expand))
  }

  ghost predicate GridBack(g: seq<real>, cs: seq<section>, k: nat, call: Call, fld: seq<real>, p: Packer,
                           tmpl: seq<int>, expand: bool)
    requires FieldAt(cs, k) && call.AddField? && Sane(call)
    requires |fld| == call.ngrdpts && PointsGiven(call, fld) != [] && |tmpl| >= 3
  {
    hide LatestMap, FieldBack, Faithful, MissingFor, PointsGiven, Sane, OnGrid, Rounding, Exact, HalfStep;
    var pf, b := PointsGiven(call, fld), LatestMap(cs[..k + 3]).1;
    var x, h := MissingFor(p, tmpl), HalfStep(tmpl[1], tmpl[2]);
    var good := OnGrid(cs[..k], call, expand) && Faithful(pf, p, tmpl);
    && (good ==> FieldBack(g, fld, b, expand, x, h + Rounding(pf, p, tmpl)))
    && (Exact(pf, p, tmpl) ==> (FieldBack(g, fld, b, expand, x, h) <==> good))
  }

  lemma {:induction false} BackIs(cs: seq<section>, k: nat, call: Call, fld: seq<real>, p: Packer, expand: bool,
                                  out: seq<real>)
    requires FieldAt(cs, k) && call.AddField? && Sane(call) && call.packing.Done? && Known(Representation, call.dnum)
    requires cs[k + 1..k + 4] == FieldContents(call) && FieldGiven(call, fld, p)
    requires Gained(out, PointsGiven(call, fld), p, EntriesGiven(call))
    ensures BackFor(cs, k, call, fld, p, expand, out)
  {
    hide Sane, Formed, Lookup, Tail, PackedAs, EntriesGiven, PointsGiven, Restored, Faithful, MissingFor, LatestMap,
         FieldRecord, FieldBack, FieldContents, OnGrid, Rounding, Exact, HalfStep;
    RecordFound(cs, k, expand, out);
    if call.ibmap != 254 || LatestMap(cs[..k]).1 == Some(call.bmap) { RecordBack(cs, k, call, fld, p, expand, out); }
  }

  lemma {:induction false} RecordFound(cs: seq<section>, k: nat, expand: bool, out: seq<real>)
    requires FieldAt(cs, k)
    ensures FieldRecord(cs, k, expand, out).fld.Some?
  {
    hide LatestMap, LatestGrid, LatestLocal, Expand, Formed, Ids;
  }

  /** The call is answered from the four sections at k; the values in the answer are those given. */
  ghost predicate ComesBack(a: seq<byte>, other: Unpacker, cs: seq<section>, k: nat, call: Call, fld: seq<real>,
                            p: Packer, q: Request, out: seq<real>)
    requires call.AddField? && Sane(call) && call.packing.Done? && Known(Representation, call.dnum)
  {
    hide BackFor, Returns, GetFldOutcome, Sane, Lookup, AnyTemplate, FieldAt;
    && FieldAt(cs, k) && BackFor(cs, k, call, fld, p, q.expand, out)
    && GetFldOutcome(a, AnyTemplate(other), q) == Returns(cs, k, q, out)
  }

  /** The octets start with the message built, and one of the fields built is to be unpacked. */
  ghost predicate Requested(a: seq<byte>, m: Msg, calls: seq<Call>, q: Request)
    requires Ordered(m) && AllSane(calls)
  {
    hide Starts, Bits, Run, Readable, Sections4, AcceptedFields, Ordered, Sane;
    && Starts(Bits(a), Run(m, calls)) && Readable(Run(m, calls).secs, true) && q.unpack
    && Sections4(m.secs) < q.ifldnum <= Sections4(m.secs) + AcceptedFields(m, calls)
  }

  /** Call i made field n. */
  ghost predicate NthCall(m: Msg, calls: seq<Call>, i: nat, n: int)
    requires Ordered(m) && AllSane(calls)
  {
    hide Sane, Ordered, Sections4, AcceptedFields, Lookup;
    && i < |calls| && calls[i].AddField? && calls[i].packing.Done? && Known(Representation, calls[i].dnum)
    && Sane(calls[i])
    && Sections4(m.secs) + AcceptedFields(m, calls[..i]) == n - 1
  }

  /** The call is for a field that was packed by one of the routines. */
  ghost predicate Given(call: Call, fld: seq<real>, p: Packer)
  {
    hide Sane, FieldGiven, Lookup;
    && call.AddField? && Sane(call) && call.packing.Done? && Known(Representation, call.dnum)
    && FieldGiven(call, fld, p)
  }

  /** Section k of a message starts the field that a call gave. */
  ghost predicate GivenAt(m: Msg, k: nat, call: Call, fld: seq<real>, p: Packer)
  {
    hide FieldContents, Sane, FieldGiven, Lookup;
    Given(call, fld, p) && call.dnum in {0, 2, 3} && FieldAt(m.secs, k) && m.secs[k + 1..k + 4] == FieldContents(call)
  }

  /** A message that can be read, at the start of the octets, asked for the field at section k. */
  ghost predicate AskedFor(a: seq<byte>, m: Msg, k: nat, q: Request)
  {
    hide Starts, Bits, Readable, Sections4, Ordered;
    && Ordered(m) && Starts(Bits(a), m) && Readable(m.secs, true) && q.unpack
    && k < |m.secs| && Sections4(m.secs[..k + 1]) == q.ifldnum
  }

  lemma {:induction false} FieldGot(a: seq<byte>, other: Unpacker, m: Msg, k: nat, call: Call, fld: seq<real>,
                                    p: Packer, q: Request)
    returns (out: seq<real>)
    requires AskedFor(a, m, k, q) && GivenAt(m, k, call, fld, p)
    ensures ComesBack(a, other, m.secs, k, call, fld, p, q, out)
  {
    hide Sane, Ordered, Readable, Starts, FieldGiven, Bits, Returns, FieldContents, Lookup, Sections4, Formed,
         GetFldOutcome, BackFor, AnyTemplate, Octets, Pow2, EntriesGiven, PointsGiven, Gained;
    SmallSections(Bits(a), m, k + 3);
    out := FieldUnpacks(other, m.secs, k, call, fld, p);
    FieldReturned(a, m, AnyTemplate(other), q, k, out);
    BackIs(m.secs, k, call, fld, p, q.expand, out);
  }

  /**
   * Any run of the builder, then `g2_getfld` for field n, packed simply or complexly: unless a bit
   * map to be used again is missing, the values returned are those given to the n-th accepted call,
   * within half a step and what the stored reference is off at the data, exactly at missing points,
   * on the grid if so requested.
   */
  lemma {:induction false} ValuesComeBack(a: seq<byte>, other: Unpacker, m: Msg, calls: seq<Call>,
                                          flds: seq<seq<real>>, ps: seq<Packer>, q: Request)
    returns (k: nat, i: nat, out: seq<real>)
    requires Ordered(m) && AllSane(calls) && |flds| == |ps| == |calls| && AllGiven(calls, flds, ps)
    requires Requested(a, m, calls, q)
    ensures NthCall(m, calls, i, q.ifldnum)
    ensures calls[i].dnum in {0, 2, 3} ==>
      ComesBack(a, other, Run(m, calls).secs, k, calls[i], flds[i], ps[i], q, out)
  {
    hide Sane, Ordered, Readable, Starts, FieldGiven, Bits, Returns, ProductContent, FieldContents, Lookup, Tail,
         Sections4, Formed, GetFldOutcome, Run, AcceptedFields, BackFor, AnyTemplate, Octets, Pow2, EntriesGiven,
         PointsGiven;
    k, i := NthField(m, calls, q.ifldnum);
    out := [];
    if calls[i].dnum in {0, 2, 3} {
      var r := Run(m, calls);
      var cs := r.secs;
      var f := [ProductContent(calls[i])] + FieldContents(calls[i]);
      assert cs[k..k + 4] == f;
      assert cs[k] == f[0] && cs[k + 1] == f[1] && cs[k + 2] == f[2] && cs[k + 3] == f[3];
      assert cs[k + 1..k + 4] == f[1..];
      out := FieldGot(a, other, r, k, calls[i], flds[i], ps[i], q);
    }
  }
}
