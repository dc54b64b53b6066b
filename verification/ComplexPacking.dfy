/**
 * Complex packing end to end: differencing, splitting into groups, packing and, against the
 * octets so produced, unpacking.
 */
module ComplexPacking {
  import opened Shifts
  import opened BitString
  import opened SignMagnitude
  import opened BitIO
  import opened FieldIO
  import opened Extremes
  import opened Cells
  import opened Differencing
  import opened ComplexFormat
  import opened ComplexRoundTrip
  import opened ComplexEncoder
  import opened ComplexDecoder
  import G = GroupSplit
  import GroupPack
  import GroupReduce

  /** The data gathered at the front of an array of zeros, and the map of missing points. */
  method Gather(cells: seq<Cell>) returns (jfld: array<int>, nonmiss: nat, miss: seq<int>)
    ensures fresh(jfld) && jfld.Length == |cells| && nonmiss <= |cells| && miss == Classes(cells)
    ensures jfld[..nonmiss] == DataOf(cells) && forall i :: nonmiss <= i < |cells| ==> jfld[i] == 0
  {
    hide DataOf, Classes;
    jfld := new int[|cells|](_ => 0);
    nonmiss, miss := 0, [];
    assert cells[..0] == [];
    NoCells();
    for j := 0 to |cells|
      invariant nonmiss <= j && miss == Classes(cells[..j]) && jfld[..nonmiss] == DataOf(cells[..j])
      invariant forall i :: nonmiss <= i < |cells| ==> jfld[i] == 0
    {
      SnocCell(cells, j);
      miss := miss + [ClassOf(cells[j])];
      if cells[j].Data? {
        jfld[nonmiss] := cells[j].v;
        nonmiss := nonmiss + 1;
      }
    }
    assert cells[..|cells|] == cells;
  }

  /** Values just below all data, to stand for the missing points while groups are sought. */
  method Markers(jfld: array<int>, nonmiss: nat) returns (miss1: int, miss2: int)
    requires 1 <= jfld.Length && nonmiss <= jfld.Length
    ensures miss2 == miss1 - 1 && forall i :: 0 <= i < nonmiss ==> miss1 < jfld[i]
    ensures exists i :: 0 <= i < jfld.Length && miss1 == jfld[i] - 1
  {
    miss1 := jfld[0];
    for j := 0 to nonmiss
      invariant forall i :: 0 <= i < j ==> miss1 <= jfld[i]
      invariant exists i :: 0 <= i < jfld.Length && miss1 == jfld[i]
    {
      if jfld[j] < miss1 { miss1 := jfld[j]; }
    }
    miss1 := miss1 - 1;
    miss2 := miss1 - 1;
  }

  /** The data back on the grid, the markers at the missing points. */
  method Spread(jfld: array<int>, nonmiss: nat, miss: seq<int>, miss1: int, miss2: int, ghost cells: seq<Cell>)
    returns (ifld: array<int>)
    requires miss == Classes(cells) && nonmiss == |DataOf(cells)| && nonmiss <= jfld.Length
    ensures fresh(ifld) && ifld.Length == |cells|
    ensures Lies(ifld[..], miss, 0, Refill(cells, jfld[..nonmiss]))
    ensures forall j :: 0 <= j < |cells| && !cells[j].Data? ==> ifld[j] == if cells[j].Primary? then miss1 else miss2
  {
    hide DataOf, Classes, Refill;
    ghost var ds := jfld[..nonmiss];
    ghost var rc := Refill(cells, ds);
    ifld := new int[|miss|];
    var n: nat := 0;
    assert cells[0..] == cells && ds[0..] == ds && rc[0..] == rc;
    for j := 0 to |miss|
      invariant n <= nonmiss && |DataOf(cells[j..])| == |ds[n..]|
      invariant rc[j..] == Refill(cells[j..], ds[n..]) && jfld[..nonmiss] == ds
      invariant forall x :: 0 <= x < j ==> (rc[x].Data? ==> ifld[x] == rc[x].v) && rc[x].Data? == cells[x].Data?
      invariant forall x :: 0 <= x < j && !cells[x].Data? ==>
        rc[x] == cells[x] && ifld[x] == if cells[x].Primary? then miss1 else miss2
    {
      RefillStep(cells, ds, j, n);
      ClassAt(cells, j);
      assert rc[j..][0] == rc[j] && rc[j..][1..] == rc[j + 1..];
      if miss[j] == 0 {
        ifld[j] := jfld[n];
        n := n + 1;
      } else if miss[j] == 1 {
        ifld[j] := miss1;
      } else {
        ifld[j] := miss2;
      }
    }
    forall x | 0 <= x < |cells| ensures miss[x] == ClassOf(rc[x]) { ClassAt(cells, x); }
  }

  // ----- group lengths

  lemma {:induction false} CoverSum(p: G.Problem, gs: seq<G.Grp>, novref: nat, lbitref: nat, lens: seq<nat>, i: nat,
                                    j: nat)
    requires j <= |p.ic| && GroupPack.Cover(p, GroupPack.WholeAll(gs, novref, lbitref), i, j)
    requires |lens| == |gs| && forall k :: 0 <= k < |gs| ==> lens[k] == gs[k].nov + novref
    ensures i <= j && Sum(lens) == j - i
    decreases |gs|
  {
    if gs != [] {
      var w := GroupPack.WholeAll(gs, novref, lbitref);
      assert w[1..] == GroupPack.WholeAll(gs[1..], novref, lbitref);
      CoverSum(p, gs[1..], novref, lbitref, lens[1..], i + w[0].nov, j);
    }
  }

  /** The lengths are those of groups that come from the pass h. */
  ghost predicate LengthsFrom(p: G.Problem, h: GroupPack.History, glen: seq<nat>)
  {
    hide GroupPack.From;
    exists gs: seq<G.Grp>, ibit: nat, jbit: nat, kbit: nat, novref: nat, lbitref: nat ::
      GroupPack.From(p, h, gs, ibit, jbit, kbit, novref, lbitref) && |gs| == |glen| &&
      forall k :: 0 <= k < |gs| ==> glen[k] == gs[k].nov + novref
  }

  /** Groups of at least ten points where the data allow it. */
  method GroupLengths(ic: seq<int>, missopt: nat, miss1: int, miss2: int)
    returns (glen: seq<nat>, ghost h: GroupPack.History)
    requires var p := G.Problem(ic, missopt, miss1, miss2); p.Valid() && G.Narrow(p)
    requires |ic| >= 1
    ensures Partition(glen, |ic|) && |glen| <= MaxGroups(|ic|)
    ensures LengthsFrom(G.Problem(ic, missopt, miss1, miss2), h, glen) && h.lminpk == 10 && h.tight
  {
    hide G.Narrow, GroupPack.Cover, GroupPack.DescriptorsFit, Sum, GroupPack.From, GroupReduce.Decided;
    var p := G.Problem(ic, missopt, miss1, miss2);
    var maxgrps := MaxGroups(|ic|);
    var gs, ibit, jbit, kbit, novref, lbitref;
    var endless, ier;
    endless, ier, gs, ibit, jbit, kbit, novref, lbitref, h := GroupPack.PackGp(p, 10, 1, maxgrps);
    glen := [];
    for ng := 0 to |gs|
      invariant |glen| == ng && forall k :: 0 <= k < ng ==> glen[k] == gs[k].nov + novref
    {
      glen := glen + [gs[ng].nov + novref];
    }
    CoverSum(p, gs, novref, lbitref, glen, 0, |ic|);
  }

  // ----- packing

  /** The residuals leave room for the missing markers in 30 bits, as the group search demands. */
  ghost predicate Packable(cells: seq<Cell>, order: nat, missopt: nat)
  {
    && Encodable(cells, order, missopt) && order < |cells| < G.LIMIT
    && forall v :: v in Residual(DataOf(cells), order) ==> v < G.LIMIT - 2
  }

  /** The buffer is large enough, however the field is split into as many groups as the search may find. */
  ghost predicate Room(cells: seq<Cell>, order: nat, missopt: nat, octets: nat)
    requires order <= 2
  {
    forall lens :: Partition(lens, |cells|) && |lens| <= MaxGroups(|cells|) ==>
      |Packed(cells, lens, order, missopt)| <= 8 * octets
  }

  function MaxGroups(n: nat): (m: nat)
  {
    n / 10 + 1
  }

  lemma {:induction false} ResidualBounds(cells: seq<Cell>, order: nat, missopt: nat)
    requires Packable(cells, order, missopt)
    ensures forall v :: v in DataOf(ResidualCells(cells, order)) ==> 0 <= v < G.LIMIT - 2
    ensures DataOf(ResidualCells(cells, order)) == Residual(DataOf(cells), order)
  {
    ResidualDataNonnegative(cells, order, missopt);
    DataOfRefill(cells, Residual(DataOf(cells), order));
  }

  /** What the group search is given satisfies its demands. */
  lemma {:induction false} SearchInput(ic: seq<int>, cells: seq<Cell>, rc: seq<Cell>, miss: seq<int>, missopt: nat,
                                       miss1: int)
    requires |ic| == |cells| == |rc| < G.LIMIT && missopt <= 2 && Allowed(cells, missopt) && -1 <= miss1 < G.LIMIT
    requires forall j :: 0 <= j < |rc| ==> rc[j].Data? == cells[j].Data?
    requires forall v :: v in DataOf(rc) ==> 0 <= v < G.LIMIT - 2
    requires Lies(ic, miss, 0, rc)
    requires forall j :: 0 <= j < |cells| && !cells[j].Data? ==> ic[j] == if cells[j].Primary? then miss1 else miss1 - 1
    ensures var p := G.Problem(ic, missopt, miss1, miss1 - 1); p.Valid() && G.Narrow(p)
  {
    var p := G.Problem(ic, missopt, miss1, miss1 - 1);
    forall j | 0 <= j < |ic| ensures rc[j].Data? ==> 0 <= ic[j] < G.LIMIT - 2 {
      if rc[j].Data? {
        DataOfMember(rc, j);
        assert ic[0 + j] == rc[j].v;
      }
    }
    forall j | 0 <= j < |ic| ensures cells[j].Data? || p.Miss(j) {
      assert cells[j] in cells;
    }
    GroupPack.Pow2Limit();
  }

  /** Gathers the data and, unless order is 0, differences it. */
  method Differenced(cells: seq<Cell>, order: nat) returns (jfld: array<int>, nonmiss: nat, miss: seq<int>, h: Header)
    requires order <= 2 && order < |cells|
    ensures fresh(jfld) && jfld.Length == |cells| && nonmiss == |DataOf(cells)| && miss == Classes(cells)
    ensures jfld[..nonmiss] == Residual(DataOf(cells), order) && h == HeaderOf(DataOf(cells), order)
    ensures forall i :: nonmiss <= i < |cells| ==> jfld[i] == 0
  {
    hide DataOf, Classes, MinDiff, At, DiffAt;
    jfld, nonmiss, miss := Gather(cells);
    h := Header(0, 0, 0);
    if order > 0 {
      var ival1, ival2, minsd := DifferenceInPlace(jfld, nonmiss, order);
      h := Header(ival1, ival2, minsd);
    }
  }

  /** The groups are sought among the values with markers at the missing points. */
  method FindGroups(cells: seq<Cell>, order: nat, missopt: nat, jfld: array<int>, nonmiss: nat, miss: seq<int>)
    returns (ifld: array<int>, glen: seq<nat>)
    requires Packable(cells, order, missopt) && jfld.Length == |cells| && nonmiss == |DataOf(cells)|
    requires miss == Classes(cells)
    requires jfld[..nonmiss] == Residual(DataOf(cells), order) && forall i :: nonmiss <= i < |cells| ==> jfld[i] == 0
    ensures fresh(ifld) && ifld.Length == |cells| && Lies(ifld[..], miss, 0, ResidualCells(cells, order))
    ensures Partition(glen, |cells|) && |glen| <= MaxGroups(|cells|)
  {
    ghost var rc := ResidualCells(cells, order);
    ResidualBounds(cells, order, missopt);
    assert forall i :: 0 <= i < nonmiss ==> jfld[i] in jfld[..nonmiss];
    hide DataOf, Classes, Residual, Lies, Refill, Partition, Allowed, GroupPack.Cover, G.Narrow;
    var miss1, miss2 := Markers(jfld, nonmiss);
    assert -1 <= miss1 < G.LIMIT;
    ifld := Spread(jfld, nonmiss, miss, miss1, miss2, cells);
    forall j | 0 <= j < |rc| ensures rc[j].Data? == cells[j].Data? {
      RefillClass(cells, Residual(DataOf(cells), order), j);
    }
    SearchInput(ifld[..], cells, rc, miss, missopt, miss1);
    ghost var h;
    glen, h := GroupLengths(ifld[..], missopt, miss1, miss2);
  }

  lemma {:induction false} HeaderFits(cells: seq<Cell>, order: nat, missopt: nat, octets: nat)
    requires 1 <= order <= 2 && 1 <= |cells| && Room(cells, order, missopt, octets)
    ensures var h := HeaderOf(DataOf(cells), order);
            |HeaderBits(order, h.ival1, h.ival2, h.minsd, HeaderWidth(h.ival1, h.ival2, h.minsd))| <= 8 * octets
  {
    hide HeaderBits, HeaderWidth, BodyBits, HeaderOf;
    var lens: seq<nat> := [|cells|];
    assert Partition(lens, |cells|) by { assert lens[1..] == [] && Sum([]) == 0; }
    assert |Packed(cells, lens, order, missopt)| <= 8 * octets;
  }

  /**
   * `compack` and `misspack`: a partition into nonempty groups is found, and the octets and the
   * template are those the format prescribes for it; octets behind the packed ones are kept.
   */
  method PackField(cells: seq<Cell>, order: nat, missopt: nat, cpack: array<byte>)
    returns (t: Drt, lcpack: nat, ghost lens: seq<nat>)
    requires Packable(cells, order, missopt) && Room(cells, order, missopt, cpack.Length)
    modifies cpack
    ensures Partition(lens, |cells|) && t == Template(cells, lens, order, missopt)
    ensures 8 * lcpack == |Packed(cells, lens, order, missopt)|
    ensures Holds(cpack, old(Bits(cpack[..])), Packed(cells, lens, order, missopt))
  {
    hide Holds, Bits, DataOf, Classes, Residual, MinDiff, Lies, Refill, Allowed, HeaderBits, HeaderWidth, FieldBits,
         TemplateOf, HeaderOf, Split, Sum, Pow2;
    ghost var a := cpack[..];
    ghost var s := Bits(a);
    var jfld, nonmiss, miss, h := Differenced(cells, order);
    assert cpack[..] == a;
    HoldsNothing(cpack);
    HeaderSigns(cells, order, missopt);
    var nbitsd, iofst := 0, 0;
    ghost var hb := [];
    if order > 0 {
      HeaderFits(cells, order, missopt, cpack.Length);
      nbitsd, iofst := AppendHeader(cpack, order, h, s);
      hb := HeaderBits(order, h.ival1, h.ival2, h.minsd, nbitsd);
    }
    var ifld, glen := FindGroups(cells, order, missopt, jfld, nonmiss, miss);
    ghost var rc := ResidualCells(cells, order);
    ResidualBounds(cells, order, missopt);
    var gref, gwidth;
    t, gref, gwidth := Plan(ifld, miss, glen, order, missopt, nbitsd, rc, h);
    lens := glen;
    assert t == Template(cells, lens, order, missopt);
    lcpack := Lay(cpack, ifld, t, gref, gwidth, glen, iofst, rc, h, s, hb);
  }

  /**
   * Packing and then unpacking, as octets: the field comes back, point for point, except exactly
   * when secondary missing points are declared and the field consists of nothing else.
   */
  method PackAndUnpack(cells: seq<Cell>, order: nat, missopt: nat, cpack: array<byte>) returns (d: Decoded)
    requires Packable(cells, order, missopt) && Room(cells, order, missopt, cpack.Length)
    modifies cpack
    ensures d == Field(cells) <==> !(missopt == 2 && AllSecondary(cells))
  {
    hide Bits, Decode, Packed, TemplateOf, AllSecondary, Groups, HeaderOf, DataOf, Residual, Room, HeaderWidth;
    ghost var s := Bits(cpack[..]);
    var t, lcpack, lens := PackField(cells, order, missopt, cpack);
    HeaderOctets(cells, lens, order, missopt);
    d := Comunpack(t, cpack, lcpack, |cells|);
    ghost var e := Packed(cells, lens, order, missopt);
    assert Bits(cpack[..]) == e + s[|e|..];
    RoundTripExactly(cells, lens, order, missopt, s[|e|..], lcpack);
  }

  lemma {:induction false} HeaderOctets(cells: seq<Cell>, lens: seq<nat>, order: nat, missopt: nat)
    requires order <= 2 && Partition(lens, |cells|)
    ensures Template(cells, lens, order, missopt).nbitsd % 8 == 0
  {
    hide Groups, HeaderOf, HeaderWidth, CeilLog2, MinOf, MaxOf, Refs, Widths, Inner, Pow2, DataOf, Sum;
  }
}
