/** `g2_pack_gp` as its callers see it: splitting, descriptors, reduction and restarts together. */
module GroupPack {
  import opened Shifts
  import opened GroupSplit
  import opened GroupReduce

  // ----- what the caller may rely on

  /** The points of [i, j) fit the group: all missing, or within bounds that its width can hold. */
  ghost predicate Fits(p: Problem, i: nat, j: nat, g: Grp)
    requires j <= |p.ic|
  {
    if g.misslx != MALLOW then AllMissing(p, i, j)
    else Within(p, i, j, Stats(g.jmin, g.jmax, 0, 0)) && g.jmax - g.jmin + p.Lmiss() < Pow2(g.lbit)
  }

  /** The groups cover [i, j) end to end. */
  ghost predicate Cover(p: Problem, gs: seq<Grp>, i: nat, j: nat)
    requires j <= |p.ic|
  {
    if gs == [] then i == j
    else i + gs[0].nov <= j && Fits(p, i, i + gs[0].nov, gs[0]) && Cover(p, gs[1..], i + gs[0].nov, j)
  }

  lemma {:induction false} CoverConcat(p: Problem, gs: seq<Grp>, hs: seq<Grp>, i: nat, j: nat, k: nat)
    requires i <= j <= k <= |p.ic| && Cover(p, gs, i, j) && Cover(p, hs, j, k)
    ensures Cover(p, gs + hs, i, k)
  {
    if gs == [] {
      assert gs + hs == hs;
    } else {
      CoverForward(p, gs[1..], i + gs[0].nov, j);
      CoverConcat(p, gs[1..], hs, i + gs[0].nov, j, k);
      assert (gs + hs)[1..] == gs[1..] + hs;
    }
  }

  lemma {:induction false} CoverForward(p: Problem, gs: seq<Grp>, i: nat, j: nat)
    requires j <= |p.ic| && Cover(p, gs, i, j)
    ensures i <= j
  {
  }

  lemma {:induction false} FitsOf(p: Problem, i: nat, j: nat, g: Grp)
    requires j <= |p.ic| && CandOk(p, i, j, CandOf(g))
    ensures Fits(p, i, j, g)
  {
  }

  lemma {:induction false} TilesCover(p: Problem, gs: seq<Grp>, n: nat)
    requires n <= |p.ic| && Tiles(p, gs, n)
    ensures Cover(p, gs, 0, n)
  {
    if gs != [] {
      var m := |gs| - 1;
      var g := gs[m];
      TilesCover(p, gs[..m], n - g.nov);
      FitsOf(p, n - g.nov, n, g);
      assert Cover(p, [g], n - g.nov, n) by { assert [g][1..] == []; }
      CoverConcat(p, gs[..m], [g], 0, n - g.nov, n);
      assert gs == gs[..m] + [g];
    }
  }

  // ----- cutting keeps the cover

  /** A row with its references put back. */
  function Whole(g: Grp, novref: nat, lbitref: nat): (r: Grp)
  {
    g.(nov := g.nov + novref, lbit := g.lbit + lbitref)
  }

  function WholeAll(gs: seq<Grp>, novref: nat, lbitref: nat): (r: seq<Grp>)
    ensures |r| == |gs|
  {
    seq(|gs|, i requires 0 <= i < |gs| => Whole(gs[i], novref, lbitref))
  }

  lemma {:induction false} FitsPart(p: Problem, i: nat, j: nat, g: Grp, i': nat, j': nat, n: nat)
    requires i <= i' <= j' <= j <= |p.ic| && Fits(p, i, j, g)
    ensures Fits(p, i', j', g.(nov := n))
  {
  }

  lemma {:induction false} CopiesCover(p: Problem, g: Grp, k: nat, i: nat, j: nat, gs: seq<Grp>)
    requires i <= j <= |p.ic| && Fits(p, i, j, g) && j == i + Times(k, g.nov)
    requires |gs| == k && forall x :: 0 <= x < k ==> gs[x] == g
    ensures Cover(p, gs, i, j)
  {
    if k > 0 {
      FitsPart(p, i, j, g, i, i + g.nov, g.nov);
      FitsPart(p, i, j, g, i + g.nov, j, g.nov);
      CopiesCover(p, g, k - 1, i + g.nov, j, gs[1..]);
    }
  }

  /** A first piece and k equal ones, which together are as long as the group. */
  lemma {:induction false} PiecesAre(g: Grp, k: nat, top: nat, novref: nat, lbitref: nat)
    returns (first: nat, step: nat)
    requires Cuttable(g, k, top, novref)
    ensures var ps, w := WholeAll(Pieces(g, k, top, novref), novref, lbitref), Whole(g, novref, lbitref);
      && ps[0] == w.(nov := first) && forall x :: 1 <= x <= k ==> ps[x] == w.(nov := step)
    ensures g.nov + novref == first + Times(k, step)
  {
    hide Times;
    SoundPieces(g.nov, k, top, novref);
    first, step := Leftmost(g.nov, k, top, novref) + novref, Movmin(g.nov, k, top, novref) + novref;
    TimesIsMul(k, step);
    hide Movmin;
  }

  lemma {:induction false} PiecesCover(p: Problem, g: Grp, k: nat, top: nat, novref: nat, lbitref: nat, i: nat, j: nat)
    requires Cuttable(g, k, top, novref) && i <= j <= |p.ic| && j == i + g.nov + novref
    requires Fits(p, i, j, Whole(g, novref, lbitref))
    ensures Cover(p, WholeAll(Pieces(g, k, top, novref), novref, lbitref), i, j)
  {
    hide Pieces, Movmin, Leftmost, Cuttable, Sound, WholeAll, Fits, Times;
    var w := Whole(g, novref, lbitref);
    var first, step := PiecesAre(g, k, top, novref, lbitref);
    var ps := WholeAll(Pieces(g, k, top, novref), novref, lbitref);
    FitsPart(p, i, j, w, i, i + first, first);
    FitsPart(p, i, j, w, i + first, j, step);
    CopiesCover(p, w.(nov := step), k, i + first, j, ps[1..]);
  }

  lemma {:induction false} WholeConcat(gs: seq<Grp>, hs: seq<Grp>, novref: nat, lbitref: nat)
    ensures WholeAll(gs + hs, novref, lbitref) == WholeAll(gs, novref, lbitref) + WholeAll(hs, novref, lbitref)
  {
  }

  /** Each row becomes consecutive pieces over the same points: nothing is lost, moved or widened. */
  lemma {:induction false} CutCover(p: Problem, rows: seq<Grp>, ks: seq<nat>, top: nat, novref: nat, lbitref: nat,
                                    i: nat, j: nat)
    requires |ks| == |rows| && forall l :: 0 <= l < |rows| ==> Cuttable(rows[l], ks[l], top, novref)
    requires i <= j <= |p.ic| && Cover(p, WholeAll(rows, novref, lbitref), i, j)
    ensures Cover(p, WholeAll(Cut(rows, ks, top, novref), novref, lbitref), i, j)
  {
    hide Cuttable, Pieces, Fits;
    if rows != [] {
      var w := WholeAll(rows, novref, lbitref);
      var m := i + rows[0].nov + novref;
      assert w[1..] == WholeAll(rows[1..], novref, lbitref);
      CoverForward(p, w[1..], m, j);
      PiecesCover(p, rows[0], ks[0], top, novref, lbitref, i, m);
      CutCover(p, rows[1..], ks[1..], top, novref, lbitref, m, j);
      var a, b := Pieces(rows[0], ks[0], top, novref), Cut(rows[1..], ks[1..], top, novref);
      CoverConcat(p, WholeAll(a, novref, lbitref), WholeAll(b, novref, lbitref), i, m, j);
      WholeConcat(a, b, novref, lbitref);
    }
  }

  // ----- descriptors

  /** The least number of bits that holds every value of vs. */
  method BitsFor(vs: seq<int>) returns (b: nat)
    ensures forall i :: 0 <= i < |vs| ==> vs[i] < Pow2(b)
    ensures b > 0 ==> exists i :: 0 <= i < |vs| && vs[i] >= Pow2(b - 1)
    ensures (forall i :: 0 <= i < |vs| ==> vs[i] < Pow2(30)) ==> b <= 30
  {
    b := 0;
    for l := 0 to |vs|
      invariant forall i :: 0 <= i < l ==> vs[i] < Pow2(b)
      invariant b > 0 ==> exists i :: 0 <= i < l && vs[i] >= Pow2(b - 1)
    {
      while vs[l] >= Pow2(b)
        invariant forall i :: 0 <= i < l ==> vs[i] < Pow2(b)
        invariant b > 0 ==> exists i :: 0 <= i <= l && vs[i] >= Pow2(b - 1)
        decreases vs[l] - b
      {
        Pow2Exceeds(b);
        assert Pow2(b + 1) == 2 * Pow2(b);
        b := b + 1;
      }
    }
    if b > 30 {
      var i :| 0 <= i < |vs| && vs[i] >= Pow2(b - 1);
      Pow2Monotone(30, b - 1);
    }
  }

  /** The least of vs, to be removed from all. */
  method LeastOf(vs: seq<nat>) returns (m: nat)
    requires vs != []
    ensures m in vs && forall i :: 0 <= i < |vs| ==> m <= vs[i]
  {
    m := vs[0];
    for k := 0 to |vs|
      invariant m in vs && forall i :: 0 <= i < k ==> m <= vs[i]
    {
      if vs[k] < m { m := vs[k]; }
    }
  }

  function Marked(p: Problem, g: Grp, ibit: nat): (r: Grp)
  {
    if p.is523 == 1 && g.lbit == 0 && g.misslx == p.missp then g.(jmin := Pow2(ibit) - 1) else g
  }

  /** gs is gs0 with the references removed and the marker set in groups that are all missing. */
  ghost predicate Described(p: Problem, gs0: seq<Grp>, gs: seq<Grp>, ibit: nat, novref: nat, lbitref: nat)
  {
    && |gs| == |gs0|
    && forall i :: 0 <= i < |gs| ==> Whole(gs[i], novref, lbitref) == Marked(p, gs0[i], ibit)
  }

  method Describe(p: Problem, gs0: seq<Grp>)
    returns (gs: seq<Grp>, ibit: nat, jbit: nat, kbit: nat, novref: nat, lbitref: nat)
    requires gs0 != [] && forall i :: 0 <= i < |gs0| ==> gs0[i].jmin < LIMIT && gs0[i].nov < LIMIT
    ensures Described(p, gs0, gs, ibit, novref, lbitref)
    ensures forall i :: 0 <= i < |gs| ==> gs[i].jmin < Pow2(ibit) && gs[i].lbit < Pow2(jbit) && gs[i].nov < Pow2(kbit)
    ensures kbit <= 30 && ibit <= 30
    ensures exists i :: 0 <= i < |gs0| && novref == gs0[i].nov
    ensures Tight(gs0, gs, ibit, jbit, kbit)
  {
    hide *;
    Pow2Limit();
    ibit := BitsFor(Jmins(gs0));
    var marked := MarkedAll(p, gs0, ibit);
    MarkedSame(p, gs0, marked, ibit);
    lbitref := LeastOf(Lbits(marked));
    novref := LeastOf(Novs(marked));
    gs := Reduced(marked, novref, lbitref);
    jbit := BitsFor(Lbits(gs));
    kbit := BitsFor(Novs(gs));
    ReducedSmall(marked, gs, novref, lbitref);
    DescribedBy(p, gs0, marked, gs, ibit, jbit, kbit, novref, lbitref);
    TightBy(gs0, marked, gs, ibit, jbit, kbit, novref, lbitref);
  }

  /** The references are the least values and the widths the least that hold the largest ones. */
  ghost predicate Tight(gs0: seq<Grp>, gs: seq<Grp>, ibit: nat, jbit: nat, kbit: nat)
  {
    hide Pow2;
    && (exists i :: 0 <= i < |gs| && gs[i].nov == 0)
    && (exists i :: 0 <= i < |gs| && gs[i].lbit == 0)
    && (ibit > 0 ==> exists i :: 0 <= i < |gs0| && gs0[i].jmin >= Pow2(ibit - 1))
    && (jbit > 0 ==> exists i :: 0 <= i < |gs| && gs[i].lbit >= Pow2(jbit - 1))
    && (kbit > 0 ==> exists i :: 0 <= i < |gs| && gs[i].nov >= Pow2(kbit - 1))
  }

  lemma {:induction false} MarkedSame(p: Problem, gs0: seq<Grp>, marked: seq<Grp>, ibit: nat)
    requires marked == MarkedAll(p, gs0, ibit)
    ensures forall i :: 0 <= i < |gs0| ==> Novs(marked)[i] == gs0[i].nov
  {
    hide Pow2, MarkedAll, Novs;
  }

  lemma {:induction false} ReducedSmall(marked: seq<Grp>, gs: seq<Grp>, novref: nat, lbitref: nat)
    requires |gs| == |marked| && forall i :: 0 <= i < |gs| ==> Whole(gs[i], novref, lbitref) == marked[i]
    ensures forall i :: 0 <= i < |gs| ==> Novs(gs)[i] == Novs(marked)[i] - novref
  {
    hide Novs;
  }

  lemma {:induction false} DescribedBy(p: Problem, gs0: seq<Grp>, marked: seq<Grp>, gs: seq<Grp>, ibit: nat, jbit: nat,
                                       kbit: nat, novref: nat, lbitref: nat)
    requires marked == MarkedAll(p, gs0, ibit) && |gs| == |gs0|
    requires forall i :: 0 <= i < |gs| ==> Whole(gs[i], novref, lbitref) == marked[i]
    requires forall i :: 0 <= i < |gs0| ==> Jmins(gs0)[i] < Pow2(ibit)
    requires forall i :: 0 <= i < |gs| ==> Lbits(gs)[i] < Pow2(jbit)
    requires forall i :: 0 <= i < |gs| ==> Novs(gs)[i] < Pow2(kbit)
    ensures Described(p, gs0, gs, ibit, novref, lbitref)
    ensures forall i :: 0 <= i < |gs| ==> gs[i].jmin < Pow2(ibit) && gs[i].lbit < Pow2(jbit) && gs[i].nov < Pow2(kbit)
  {
    hide Pow2, MarkedAll, Novs, Lbits, Jmins;
    forall i | 0 <= i < |gs| ensures gs[i].jmin < Pow2(ibit) && gs[i].lbit < Pow2(jbit) && gs[i].nov < Pow2(kbit) {
      assert Lbits(gs)[i] < Pow2(jbit) && Novs(gs)[i] < Pow2(kbit) && Jmins(gs0)[i] < Pow2(ibit);
    }
  }

  lemma {:induction false} TightBy(gs0: seq<Grp>, marked: seq<Grp>, gs: seq<Grp>, ibit: nat, jbit: nat, kbit: nat,
                                         novref: nat, lbitref: nat)
    requires |gs| == |marked| && forall i :: 0 <= i < |gs| ==> Whole(gs[i], novref, lbitref) == marked[i]
    requires novref in Novs(marked) && lbitref in Lbits(marked)
    requires ibit > 0 ==> exists i :: 0 <= i < |gs0| && Jmins(gs0)[i] >= Pow2(ibit - 1)
    requires jbit > 0 ==> exists i :: 0 <= i < |gs| && Lbits(gs)[i] >= Pow2(jbit - 1)
    requires kbit > 0 ==> exists i :: 0 <= i < |gs| && Novs(gs)[i] >= Pow2(kbit - 1)
    ensures Tight(gs0, gs, ibit, jbit, kbit)
  {
    hide Pow2, Novs, Lbits, Jmins;
    var x :| 0 <= x < |gs| && Lbits(marked)[x] == lbitref;
    var y :| 0 <= y < |gs| && Novs(marked)[y] == novref;
    assert Whole(gs[x], novref, lbitref) == marked[x] && Whole(gs[y], novref, lbitref) == marked[y];
    assert gs[x].lbit == 0 && gs[y].nov == 0;
  }

  function Jmins(gs: seq<Grp>): (r: seq<int>)
    ensures |r| == |gs| && forall i :: 0 <= i < |gs| ==> r[i] == gs[i].jmin
  {
    seq(|gs|, i requires 0 <= i < |gs| => gs[i].jmin)
  }

  function Lbits(gs: seq<Grp>): (r: seq<nat>)
    ensures |r| == |gs| && forall i :: 0 <= i < |gs| ==> r[i] == gs[i].lbit
  {
    seq(|gs|, i requires 0 <= i < |gs| => gs[i].lbit)
  }

  function Novs(gs: seq<Grp>): (r: seq<nat>)
    ensures |r| == |gs| && forall i :: 0 <= i < |gs| ==> r[i] == gs[i].nov
  {
    seq(|gs|, i requires 0 <= i < |gs| => gs[i].nov)
  }

  function MarkedAll(p: Problem, gs: seq<Grp>, ibit: nat): (r: seq<Grp>)
    ensures |r| == |gs| && forall i :: 0 <= i < |gs| ==> r[i] == Marked(p, gs[i], ibit)
  {
    seq(|gs|, i requires 0 <= i < |gs| => Marked(p, gs[i], ibit))
  }

  function Reduced(gs: seq<Grp>, novref: nat, lbitref: nat): (r: seq<Grp>)
    requires forall i :: 0 <= i < |gs| ==> novref <= Novs(gs)[i] && lbitref <= Lbits(gs)[i]
    ensures |r| == |gs| && forall i :: 0 <= i < |gs| ==> Whole(r[i], novref, lbitref) == gs[i]
  {
    seq(|gs|, i requires 0 <= i < |gs| =>
      gs[i].(nov := Novs(gs)[i] - novref, lbit := Lbits(gs)[i] - lbitref))
  }

  lemma {:induction false} Pow2Limit()
    ensures Pow2(30) == LIMIT
  {
    assert Pow2(15) == 32768;
    Pow2Adds(15, 15);
  }

  lemma {:induction false} DescribedCover(p: Problem, gs0: seq<Grp>, gs: seq<Grp>, ibit: nat, novref: nat, lbitref: nat,
                                          i: nat, j: nat)
    requires p.Valid() && i <= j <= |p.ic| && Cover(p, gs0, i, j) && Described(p, gs0, gs, ibit, novref, lbitref)
    ensures Cover(p, WholeAll(gs, novref, lbitref), i, j)
  {
    if gs0 != [] {
      var w := WholeAll(gs, novref, lbitref);
      assert w[1..] == WholeAll(gs[1..], novref, lbitref);
      assert w[0] == Marked(p, gs0[0], ibit);
      CoverForward(p, gs0[1..], i + gs0[0].nov, j);
      DescribedCover(p, gs0[1..], gs[1..], ibit, novref, lbitref, i + gs0[0].nov, j);
      assert Fits(p, i, i + gs0[0].nov, w[0]);
    }
  }

  // ----- the driver

  lemma {:induction false} CoverSizes(p: Problem, gs: seq<Grp>, n: nat)
    requires p.Valid() && n <= |p.ic| && Tiles(p, gs, n)
    ensures forall i :: 0 <= i < |gs| ==> gs[i].jmin < LIMIT && gs[i].nov < LIMIT
  {
    if gs != [] {
      CoverSizes(p, gs[..|gs| - 1], n - gs[|gs| - 1].nov);
      assert CandOf(gs[|gs| - 1]).s.lo < LIMIT;
    }
  }

  lemma {:induction false} SharplyNonempty(p: Problem, gs: seq<Grp>, n: nat)
    requires n <= |p.ic| && TilesSharply(p, gs, n)
    ensures forall i :: 0 <= i < |gs| ==> gs[i].nov >= 1
  {
    if gs != [] {
      SharplyNonempty(p, gs[..|gs| - 1], n - gs[|gs| - 1].nov);
    }
  }

  /** The descriptors fit the widths that are returned with them. */
  ghost predicate DescriptorsFit(gs: seq<Grp>, ibit: nat, jbit: nat, kbit: nat)
  {
    forall i :: 0 <= i < |gs| ==> gs[i].jmin < Pow2(ibit) && gs[i].lbit < Pow2(jbit) && gs[i].nov < Pow2(kbit)
  }

  ghost predicate Small(gs: seq<Grp>, ibit: nat, jbit: nat)
  {
    forall i :: 0 <= i < |gs| ==> gs[i].jmin < Pow2(ibit) && gs[i].lbit < Pow2(jbit)
  }

  lemma {:induction false} SmallConcat(gs: seq<Grp>, hs: seq<Grp>, ibit: nat, jbit: nat)
    requires Small(gs, ibit, jbit) && Small(hs, ibit, jbit)
    ensures Small(gs + hs, ibit, jbit)
  {
    hide Pow2;
  }

  lemma {:induction false} PiecesSmall(g: Grp, k: nat, top: nat, novref: nat, ibit: nat, jbit: nat)
    requires Cuttable(g, k, top, novref) && g.jmin < Pow2(ibit) && g.lbit < Pow2(jbit)
    ensures Small(Pieces(g, k, top, novref), ibit, jbit)
  {
    hide Pow2, Cuttable;
  }

  lemma {:induction false} CutDescriptors(rows: seq<Grp>, ks: seq<nat>, top: nat, novref: nat, ibit: nat, jbit: nat)
    requires |ks| == |rows| && forall l :: 0 <= l < |rows| ==> Cuttable(rows[l], ks[l], top, novref)
    requires Small(rows, ibit, jbit)
    ensures Small(Cut(rows, ks, top, novref), ibit, jbit)
  {
    hide Pow2, Cuttable, Pieces;
    if rows != [] {
      CutDescriptors(rows[1..], ks[1..], top, novref, ibit, jbit);
      PiecesSmall(rows[0], ks[0], top, novref, ibit, jbit);
      SmallConcat(Pieces(rows[0], ks[0], top, novref), Cut(rows[1..], ks[1..], top, novref), ibit, jbit);
    }
  }

  /** After a split everything promised of the rows still holds, for the new width of lengths. */
  lemma {:induction false} SplitKeeps(p: Problem, rows: seq<Grp>, rows': seq<Grp>, ibit: nat, jbit: nat, kbit: nat,
                                      kbit': nat, novref: nat, lbitref: nat)
    requires IsSplit(rows, rows', ibit, jbit, kbit, kbit', novref) && DescriptorsFit(rows, ibit, jbit, kbit)
    requires Cover(p, WholeAll(rows, novref, lbitref), 0, |p.ic|)
    ensures Cover(p, WholeAll(rows', novref, lbitref), 0, |p.ic|) && DescriptorsFit(rows', ibit, jbit, kbit')
    ensures |rows'| >= |rows|
  {
    hide Cuttable, Cut, Cover, WholeAll, BoxList;
    var ks, top := BoxList(rows, kbit'), Pow2(kbit') - 1;
    CutCover(p, rows, ks, top, novref, lbitref, 0, |p.ic|);
    CutFits(rows, ks, top, novref);
    CutDescriptors(rows, ks, top, novref, ibit, jbit);
  }

  method FillRows(rows: array<Grp>, gs: seq<Grp>)
    requires |gs| <= rows.Length
    modifies rows
    ensures rows[..|gs|] == gs
  {
    for i := 0 to |gs|
      invariant rows[..i] == gs[..i]
    {
      rows[i] := gs[i];
    }
  }

  /** The pass that the groups come from: its groups, how each was closed, their descriptors before the reduction. */
  datatype History = History(lminpk: nat, tight: bool, split: seq<Grp>, cs: seq<Closing>, whole: seq<Grp>, kbit: nat)

  /** The groups are those of the pass, described with the least references and widths, and split or not. */
  ghost predicate From(p: Problem, h: History, gs: seq<Grp>, ibit: nat, jbit: nat, kbit: nat, novref: nat, lbitref: nat)
  {
    hide AllExplained, Described, Tight, IsSplit;
    && 1 <= h.lminpk && AllExplained(p, h.lminpk, h.tight, h.split, h.cs)
    && Described(p, h.split, h.whole, ibit, novref, lbitref) && Tight(h.split, h.whole, ibit, jbit, h.kbit)
    && ((gs == h.whole && kbit == h.kbit) || IsSplit(h.whole, gs, ibit, jbit, h.kbit, kbit, novref))
  }

  lemma {:induction false} FromBy(p: Problem, h: History, gs: seq<Grp>, ibit: nat, jbit: nat, kbit: nat, novref: nat,
                                  lbitref: nat)
    requires 1 <= h.lminpk && AllExplained(p, h.lminpk, h.tight, h.split, h.cs)
    requires Described(p, h.split, h.whole, ibit, novref, lbitref) && Tight(h.split, h.whole, ibit, jbit, h.kbit)
    requires (gs == h.whole && kbit == h.kbit) || IsSplit(h.whole, gs, ibit, jbit, h.kbit, kbit, novref)
    ensures From(p, h, gs, ibit, jbit, kbit, novref, lbitref)
  {
    hide AllExplained, Described, Tight, IsSplit;
  }

  /** The smallest group after k passes that gave too many groups: half as large again each time. */
  function Grown(m: nat, k: nat): (n: nat)
  {
    if k == 0 then m else Grown(m, k - 1) + Grown(m, k - 1) / 2
  }

  /**
   * Splits the field into groups.  The pass is repeated with larger groups while there are more
   * than ndg of them (716), and once more without the reduction if that gives up (714, 715);
   * 706 means that a range does not fit 30 bits.  Groups of one point do not get larger: if their
   * increment does not get smaller either, the same pass is repeated for ever.
   */
  method PackGp(p: Problem, minpk: nat, inc: int, ndg: nat)
    returns (endless: bool, ier: int, gs: seq<Grp>, ibit: nat, jbit: nat, kbit: nat, novref: nat, lbitref: nat,
             ghost h: History)
    requires p.Valid() && 1 <= |p.ic| && 1 <= minpk && 1 <= ndg
    ensures endless ==> minpk == 1 && ndg < |p.ic|
    ensures !endless ==> ier in {0, 706, 714, 715, 716, 717}
    ensures Narrow(p) ==> ier != 706
    ensures !endless && ier != 706 ==> Cover(p, WholeAll(gs, novref, lbitref), 0, |p.ic|)
    ensures !endless && ier != 706 ==> DescriptorsFit(gs, ibit, jbit, kbit) && 1 <= |gs| <= ndg
    ensures !endless && ier != 706 ==> From(p, h, gs, ibit, jbit, kbit, novref, lbitref) && minpk <= h.lminpk
    ensures !endless && ier in {0, 717} && |h.whole| > 1 ==>
      Decided(h.whole, gs, ndg, 0, ibit, jbit, h.kbit, kbit, novref)
    ensures ndg > (|p.ic| - 1) / minpk && inc <= 1 && !endless && ier != 706 ==> h.lminpk == minpk && h.tight
    ensures !endless && ier != 706 ==> exists k: nat :: h.lminpk == Grown(minpk, k)
    ensures !endless && ier in {0, 717} ==> h.lminpk == minpk && (ier == 717 <==> inc <= 0)
    ensures ndg > (|p.ic| - 1) / minpk ==> !endless && ier != 716
    ensures !endless && minpk == 1 && inc <= 1 ==> ier != 716
    ensures !endless && ier != 706 && ndg > (|p.ic| - 1) / minpk && inc <= 1 ==> novref >= 1
  {
    hide Cover, Tiles, TilesSharply, Narrow, WholeAll, Described, IsSplit, DescriptorsFit, Pow2, Tight, From,
         AllExplained, Decided;
    h := History(1, false, [], [], [], 0);
    endless, ier := false, 0;
    gs, ibit, jbit, kbit, novref, lbitref := [], 0, 0, 0, 0, 0;
    var iersav := if inc <= 0 then 717 else 0;
    var rows := new Grp[ndg](_ => Grp(0, 0, 0, 0, 0));
    var ired := 0;
    while true
      invariant 0 <= ired <= 1 && (ired == 0 ==> iersav == if inc <= 0 then 717 else 0)
      invariant ired == 1 ==> iersav in {714, 715}
      invariant ndg > (|p.ic| - 1) / minpk || (minpk == 1 && inc <= 1) ==> iersav != 716
      decreases 1 - ired
    {
      var kinc: nat := if inc > 1 then inc else 1;
      var lminpk := minpk;
      var r, split;
      ghost var cs;
      var kinc0 := kinc;
      ghost var tight, turns: nat := kinc == 1, 0;
      r, split, kinc, cs := SplitOnce(p, lminpk, kinc, ndg);
      while r.TooMany?
        invariant lminpk == Grown(minpk, turns) && (iersav in {0, 717} ==> turns == 0 && (iersav == 717 <==> inc <= 0))
        invariant lminpk >= minpk && 1 <= kinc && (minpk == 1 ==> lminpk == 1 && kinc <= kinc0)
        invariant inc <= 1 && minpk == 1 ==> kinc0 == 1
        invariant r.Done? ==> Tiles(p, split, |p.ic|) && 1 <= |split| <= ndg
        invariant AllExplained(p, lminpk, tight, split, cs)
        invariant ndg > (|p.ic| - 1) / minpk && inc <= 1 ==> lminpk == minpk && tight
        invariant r.Done? && ndg > (|p.ic| - 1) / minpk && inc <= 1 ==> TilesSharply(p, split, |p.ic|)
        invariant r.TooMany? ==> ndg <= (|p.ic| - 1) / lminpk
        invariant ndg > (|p.ic| - 1) / minpk ==> iersav != 716 && !r.TooMany?
        invariant Narrow(p) ==> !r.TooWide?
        invariant iersav in {0, 714, 715, 716, 717} && (ired == 1 ==> iersav in {714, 715, 716})
        invariant minpk == 1 && inc <= 1 ==> iersav != 716
        decreases |p.ic| - lminpk, kinc0, if r.TooMany? then 1 else 0
      {
        DivPositive(|p.ic| - 1, lminpk);
        if lminpk == 1 && kinc == kinc0 {
          endless := true;
          return;
        }
        lminpk, turns := lminpk + lminpk / 2, turns + 1;
        iersav, kinc0, tight := 716, kinc, kinc == 1;
        r, split, kinc, cs := SplitOnce(p, lminpk, kinc, ndg);
      }
      if r.TooWide? { return false, 706, gs, ibit, jbit, kbit, novref, lbitref, h; }
      CoverSizes(p, split, |p.ic|);
      TilesCover(p, split, |p.ic|);
      gs, ibit, jbit, kbit, novref, lbitref := Describe(p, split);
      DescribedKeeps(p, split, gs, ibit, jbit, kbit, novref, lbitref);
      if ndg > (|p.ic| - 1) / minpk && inc <= 1 { SharplyNonempty(p, split, |p.ic|); }
      h := History(lminpk, tight, split, cs, gs, kbit);
      if ired != 0 {
        FromBy(p, h, gs, ibit, jbit, kbit, novref, lbitref);
        return false, iersav, gs, ibit, jbit, kbit, novref, lbitref, h;
      }
      FillRows(rows, gs);
      var ier', lx, kbit';
      ier', lx, kbit' := Reduce(rows, |gs|, ibit, jbit, kbit, novref);
      if ier' == 0 {
        if IsSplit(gs, rows[..lx], ibit, jbit, kbit, kbit', novref) {
          SplitKeeps(p, gs, rows[..lx], ibit, jbit, kbit, kbit', novref, lbitref);
        }
        FromBy(p, h, rows[..lx], ibit, jbit, kbit', novref, lbitref);
        return false, iersav, rows[..lx], ibit, jbit, kbit', novref, lbitref, h;
      }
      iersav, ired := ier', 1;
    }
  }

  lemma {:induction false} DivPositive(n: nat, d: nat)
    requires d >= 1
    ensures n / d >= 1 ==> d <= n
  {
    if n / d >= 1 {
      assert n == n / d * d + n % d;
      MulLe(1, n / d, d);
    }
  }

  lemma {:induction false} DescribedKeeps(p: Problem, gs0: seq<Grp>, gs: seq<Grp>, ibit: nat, jbit: nat, kbit: nat,
                                          novref: nat, lbitref: nat)
    requires p.Valid() && Cover(p, gs0, 0, |p.ic|) && Described(p, gs0, gs, ibit, novref, lbitref)
    requires forall i :: 0 <= i < |gs| ==> gs[i].jmin < Pow2(ibit) && gs[i].lbit < Pow2(jbit) && gs[i].nov < Pow2(kbit)
    ensures Cover(p, WholeAll(gs, novref, lbitref), 0, |p.ic|) && DescriptorsFit(gs, ibit, jbit, kbit) && |gs| == |gs0|
  {
    DescribedCover(p, gs0, gs, ibit, novref, lbitref, 0, |p.ic|);
  }
}
