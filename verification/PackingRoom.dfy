/** How large a buffer complex packing needs, and for which fields the caller's is large enough. */
module PackingRoom {
  import opened Shifts
  import opened BitString
  import opened SignMagnitude
  import opened Extremes
  import opened Cells
  import opened Differencing
  import opened ComplexFormat
  import opened ComplexRoundTrip
  import opened ComplexPacking

  /**
   * The most bits for a number of points and groups, a greatest group width and a width of the
   * header's values: a reference, a width and a length for each group, the points, the header and
   * four paddings.
   */
  ghost function MostBits(points: nat, groups: nat, width: nat, header: nat): (n: int)
  {
    3 * header + groups * width + groups * CeilLog2(width + 1) + groups * CeilLog2(points) + points * width + 28
  }

  lemma {:induction false} CeilLog2Monotone(x: int, y: int)
    requires x <= y
    ensures CeilLog2(x) <= CeilLog2(y)
  {
  }

  lemma {:induction false} RunBound(vs: seq<int>, w: nat, most: nat, groups: nat)
    requires w <= most && |vs| <= groups
    ensures |RunBits(vs, w)| <= groups * most + 7
  {
    hide EncAll;
    EncAllLength(vs, w);
    MulLe(|vs|, groups, w);
    MulLe(w, most, groups);
  }

  lemma {:induction false} WidthBound(g: seq<Cell>, missopt: nat, top: nat)
    requires missopt <= 2 && Allowed(g, missopt) && forall v :: v in DataOf(g) ==> 0 <= v <= top
    ensures GroupWidth(g, missopt) <= CeilLog2(top + missopt + 1) && GroupRef(g) <= top
  {
    hide DataOf, CeilLog2;
    var ds := DataOf(g);
    if ds != [] {
      CeilLog2Monotone(MaxOf(ds) - MinOf(ds) + missopt + 1, top + missopt + 1);
    } else if Primary in g && Secondary in g {
      CeilLog2Monotone(3, top + missopt + 1);
      CeilLog2Zero(3);
    }
  }

  lemma {:induction false} GroupBound(g: seq<Cell>, missopt: nat, most: nat)
    requires GroupWidth(g, missopt) <= most
    ensures |GroupBits(g, missopt)| <= |g| * most
  {
    hide GroupWidth, EncAll, Codes, GroupRef;
    var w := GroupWidth(g, missopt);
    EncAllLength(Codes(g, GroupRef(g), w), w);
    MulLe(w, most, |g|);
    MulLe(0, most, |g|);
  }

  lemma {:induction false} DataBound(gs: seq<seq<Cell>>, lens: seq<nat>, missopt: nat, most: nat)
    requires |gs| == |lens| && forall i :: 0 <= i < |gs| ==> |gs[i]| == lens[i] && GroupWidth(gs[i], missopt) <= most
    ensures |DataBits(gs, missopt)| <= Sum(lens) * most
    decreases |gs|
  {
    hide GroupWidth, GroupBits;
    if gs != [] {
      DataBound(gs[1..], lens[1..], missopt, most);
      GroupBound(gs[0], missopt, most);
      SumTimes(lens[0], Sum(lens[1..]), most);
    }
  }

  lemma {:induction false} SumTimes(a: int, b: int, m: int)
    ensures (a + b) * m == a * m + b * m
  {
  }

  lemma {:induction false} LengthBound(lens: seq<nat>, i: nat)
    requires i < |lens|
    ensures lens[i] <= Sum(lens)
  {
    if i > 0 { LengthBound(lens[1..], i - 1); }
  }

  /** Groups whose data lie between 0 and top. */
  ghost predicate Below(gs: seq<seq<Cell>>, missopt: nat, top: nat)
  {
    forall i :: 0 <= i < |gs| ==> Allowed(gs[i], missopt) && GroupBelow(gs[i], top)
  }

  ghost predicate GroupBelow(g: seq<Cell>, top: nat)
  {
    forall v :: v in DataOf(g) ==> 0 <= v <= top
  }

  lemma {:induction false} MaxBelow(s: seq<int>, top: int)
    requires s != [] && forall i :: 0 <= i < |s| ==> s[i] <= top
    ensures MaxOf(s) <= top
  {
  }

  lemma {:induction false} GroupsBound(gs: seq<seq<Cell>>, missopt: nat, top: nat)
    requires gs != [] && missopt <= 2 && Below(gs, missopt, top)
    ensures var w := CeilLog2(top + missopt + 1);
      && (forall i :: 0 <= i < |gs| ==> GroupWidth(gs[i], missopt) <= w)
      && MaxOf(Refs(gs)) <= top && MaxOf(Widths(gs, missopt)) <= w && MinOf(Widths(gs, missopt)) >= 0
  {
    hide CeilLog2, GroupWidth, GroupRef, Allowed, MaxOf, MinOf;
    var w := CeilLog2(top + missopt + 1);
    forall i | 0 <= i < |gs| ensures GroupWidth(gs[i], missopt) <= w && GroupRef(gs[i]) <= top {
      assert GroupBelow(gs[i], top);
      WidthBound(gs[i], missopt, top);
    }
    MaxBelow(Refs(gs), top);
    MaxBelow(Widths(gs, missopt), w);
  }

  lemma {:induction false} LengthsBound(lens: seq<nat>)
    requires lens != [] && forall i :: 0 <= i < |lens| ==> lens[i] > 0
    ensures MaxOf(Inner(lens)) - MinOf(Inner(lens)) + 1 <= Sum(lens)
  {
    hide Sum, MaxOf, MinOf;
    forall i | 0 <= i < |lens| ensures lens[i] <= Sum(lens) { LengthBound(lens, i); }
    MaxBelow(Inner(lens), Sum(lens));
  }

  /** The three descriptor widths of the template. */
  lemma {:induction false} TemplateBound(gs: seq<seq<Cell>>, lens: seq<nat>, order: nat, missopt: nat, h: Header,
                                         top: nat)
    requires |gs| == |lens| > 0 && missopt <= 2 && (forall i :: 0 <= i < |lens| ==> lens[i] > 0)
    requires Below(gs, missopt, top)
    ensures var t, w := TemplateOf(gs, lens, order, missopt, h), CeilLog2(top + missopt + 1);
      t.nbitsgref <= w && t.nbitsgwidth <= CeilLog2(w + 1) && t.nbitsglen <= CeilLog2(Sum(lens))
  {
    hide CeilLog2, Sum, HeaderWidth, Below, Refs, Widths, Inner, MaxOf, MinOf, GroupWidth, Pow2;
    var w, ws, inner := CeilLog2(top + missopt + 1), Widths(gs, missopt), Inner(lens);
    GroupsBound(gs, missopt, top);
    LengthsBound(lens);
    CeilLog2Monotone(MaxOf(Refs(gs)) + missopt + 1, top + missopt + 1);
    CeilLog2Monotone(MaxOf(ws) - MinOf(ws) + 1, w + 1);
    CeilLog2Monotone(MaxOf(inner) - MinOf(inner) + 1, Sum(lens));
  }

  lemma {:induction false} HeaderBound(order: nat, h: Header, n: nat)
    requires n >= 1
    ensures |HeaderBits(order, h.ival1, h.ival2, h.minsd, n)| <= 3 * n
  {
    hide SignedBits;
  }

  ghost function HeaderNeeds(cells: seq<Cell>, order: nat): (n: nat)
    requires order <= 2
  {
    var h := HeaderOf(DataOf(cells), order);
    if order == 0 then 0 else HeaderWidth(h.ival1, h.ival2, h.minsd)
  }

  /** No partition takes more. */
  lemma {:induction false} PackedBound(cells: seq<Cell>, lens: seq<nat>, order: nat, missopt: nat, top: nat,
                                       groups: nat)
    requires Encodable(cells, order, missopt) && Partition(lens, |cells|) && |lens| <= groups
    requires forall v :: v in Residual(DataOf(cells), order) ==> v <= top
    ensures |Packed(cells, lens, order, missopt)|
         <= MostBits(|cells|, groups, CeilLog2(top + missopt + 1), HeaderNeeds(cells, order))
  {
    hide CeilLog2, DataOf, Sum, HeaderWidth, Allowed, RunBits, DataBits, HeaderBits, Residual, Groups, HeaderOf, Up8,
         StoredRefs, StoredLens, Widths, GroupWidth, MostBits, Below, TemplateOf, HeaderNeeds, Packed, Minus, Pow2;
    var gs, h := Groups(cells, lens, order), HeaderOf(DataOf(cells), order);
    var t, w := Template(cells, lens, order, missopt), CeilLog2(top + missopt + 1);
    GroupsBelow(cells, lens, order, missopt, top);
    TemplateBound(gs, lens, order, missopt, h, top);
    GroupsBound(gs, missopt, top);
    RunBound(StoredRefs(gs, t.nbitsgref), t.nbitsgref, w, groups);
    RunBound(Minus(Widths(gs, missopt), t.ngwidthref), t.nbitsgwidth, CeilLog2(w + 1), groups);
    RunBound(StoredLens(lens, t.nglenref), t.nbitsglen, CeilLog2(|cells|), groups);
    DataBound(gs, lens, missopt, w);
    if order > 0 { HeaderBound(order, h, t.nbitsd); }
    Together(cells, lens, order, missopt, w, groups);
  }

  lemma {:induction false} GroupsBelow(cells: seq<Cell>, lens: seq<nat>, order: nat, missopt: nat, top: nat)
    requires Encodable(cells, order, missopt) && Partition(lens, |cells|)
    requires forall v :: v in Residual(DataOf(cells), order) ==> v <= top
    ensures var gs := Groups(cells, lens, order);
      missopt <= 2 && Below(gs, missopt, top) && forall i :: 0 <= i < |gs| ==> |gs[i]| == lens[i]
  {
    hide Residual, DataOf, Split, Refill, Allowed, Sum;
    GroupsInherit(cells, lens, order, missopt);
    var rc, gs := ResidualCells(cells, order), Groups(cells, lens, order);
    DataOfRefill(cells, Residual(DataOf(cells), order));
    forall i | 0 <= i < |gs| ensures GroupBelow(gs[i], top) {
      forall v | v in DataOf(gs[i]) ensures 0 <= v <= top {
        DataOfSource(gs[i], v);
        SplitMembers(rc, lens, i, Data(v));
        var k :| 0 <= k < |rc| && rc[k] == Data(v);
        DataOfMember(rc, k);
      }
    }
  }

  lemma {:induction false} Together(cells: seq<Cell>, lens: seq<nat>, order: nat, missopt: nat, w: nat, groups: nat)
    requires Encodable(cells, order, missopt) && Partition(lens, |cells|)
    requires var gs, t := Groups(cells, lens, order), Template(cells, lens, order, missopt);
      var h := HeaderOf(DataOf(cells), order);
      && |RunBits(StoredRefs(gs, t.nbitsgref), t.nbitsgref)| <= groups * w + 7
      && |RunBits(Minus(Widths(gs, missopt), t.ngwidthref), t.nbitsgwidth)| <= groups * CeilLog2(w + 1) + 7
      && |RunBits(StoredLens(lens, t.nglenref), t.nbitsglen)| <= groups * CeilLog2(|cells|) + 7
      && |DataBits(gs, missopt)| <= |cells| * w
      && (order > 0 ==> |HeaderBits(order, h.ival1, h.ival2, h.minsd, t.nbitsd)| <= 3 * t.nbitsd)
    ensures |Packed(cells, lens, order, missopt)| <= MostBits(|cells|, groups, w, HeaderNeeds(cells, order))
  {
    hide CeilLog2, DataOf, Sum, HeaderWidth, Allowed, RunBits, DataBits, HeaderBits, Groups, HeaderOf, Up8, StoredRefs,
         StoredLens, Widths, MinOf, MaxOf, Refs, Inner;
  }

  /** A buffer of that size is room enough. */
  lemma {:induction false} RoomEnough(cells: seq<Cell>, order: nat, missopt: nat, top: nat, octets: nat)
    requires Encodable(cells, order, missopt) && forall v :: v in Residual(DataOf(cells), order) ==> v <= top
    requires MostBits(|cells|, MaxGroups(|cells|), CeilLog2(top + missopt + 1), HeaderNeeds(cells, order)) <= 8 * octets
    ensures Room(cells, order, missopt, octets)
  {
    hide CeilLog2, DataOf, Residual, Packed, MostBits, HeaderNeeds, Sum, MaxGroups, Pow2, Allowed;
    forall lens | Partition(lens, |cells|) && |lens| <= MaxGroups(|cells|)
      ensures |Packed(cells, lens, order, missopt)| <= 8 * octets
    {
      PackedBound(cells, lens, order, missopt, top, MaxGroups(|cells|));
    }
  }

  /** What `g2_addfield` allocates for n points. */
  function Allocated(n: nat): (octets: nat)
  {
    if 4 * n < 50000 then 50000 else 4 * n
  }

  /** Residuals below 2^25 - 2, header values below 2^31. */
  ghost predicate Small(cells: seq<Cell>, order: nat)
    requires order <= 2
  {
    hide DataOf, Residual, Pow2, HeaderOf;
    var h := HeaderOf(DataOf(cells), order);
    && |cells| < Pow2(30) && (forall v :: v in Residual(DataOf(cells), order) ==> v < Pow2(25) - 2)
    && h.ival1 < Pow2(31) && h.ival2 < Pow2(31) && Abs(h.minsd) < Pow2(31)
  }

  /**
   * It is enough whenever the residuals stay below 2^25 - 2 and the header's values below 2^31,
   * whatever the partition.
   */
  lemma {:induction false} AllocatedIsEnough(cells: seq<Cell>, order: nat, missopt: nat)
    requires Encodable(cells, order, missopt) && Small(cells, order)
    ensures Room(cells, order, missopt, Allocated(|cells|))
  {
    hide CeilLog2, DataOf, Residual, Pow2, HeaderOf, Room, MostBits, Allowed, MaxGroups, HeaderNeeds;
    Pow2Adds(8, 8);
    Pow2Adds(16, 8);
    Pow2Adds(24, 1);
    Pow2Small();
    var top := Pow2(25) - 3;
    SmallWidth(top + missopt + 1, 25);
    HeaderIsSmall(cells, order);
    MostBitsBelow(|cells|, CeilLog2(top + missopt + 1), HeaderNeeds(cells, order));
    RoomEnough(cells, order, missopt, top, Allocated(|cells|));
  }

  /** Packed into the buffer that `g2_addfield` allocates, and unpacked. */
  method PackAllocated(cells: seq<Cell>, order: nat, missopt: nat) returns (d: Decoded)
    requires Packable(cells, order, missopt) && Small(cells, order)
    ensures d == Field(cells) <==> !(missopt == 2 && AllSecondary(cells))
  {
    hide Small, Room, AllSecondary, Allocated, Allowed;
    AllocatedIsEnough(cells, order, missopt);
    var cpack := new byte[Allocated(|cells|)];
    d := PackAndUnpack(cells, order, missopt, cpack);
  }

  lemma {:induction false} SmallWidth(x: int, w: nat)
    requires x <= Pow2(w)
    ensures CeilLog2(x) <= w
  {
  }

  lemma {:induction false} HeaderIsSmall(cells: seq<Cell>, order: nat)
    requires order <= 2
    requires var h := HeaderOf(DataOf(cells), order);
      h.ival1 < Pow2(31) && h.ival2 < Pow2(31) && Abs(h.minsd) < Pow2(31)
    ensures HeaderNeeds(cells, order) <= 32
  {
    hide CeilLog2, DataOf, Pow2, HeaderOf;
    var h := HeaderOf(DataOf(cells), order);
    SmallWidth(Abs(h.minsd) + 1, 31);
    SmallWidth(h.ival1 + 1, 31);
    SmallWidth(h.ival2 + 1, 31);
  }

  lemma {:induction false} MostBitsBelow(n: nat, width: nat, header: nat)
    requires width <= 25 && header <= 32 && n < Pow2(30)
    ensures MostBits(n, MaxGroups(n), width, header) <= 8 * Allocated(n)
  {
    hide CeilLog2, Pow2;
    Pow2Small();
    var g := MaxGroups(n);
    SmallWidth(width + 1, 5);
    SmallWidth(n, 30);
    MulLe(width, 25, g);
    MulLe(CeilLog2(width + 1), 5, g);
    MulLe(CeilLog2(n), 30, g);
    MulLe(width, 25, n);
  }
}
