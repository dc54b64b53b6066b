/**
 * Complex packing wastes no bits: every width that the encoder settles is the least with which the
 * format can hold what it is for.
 */
module LeastWidths {
  import opened Shifts
  import opened BitString
  import opened SignMagnitude
  import opened Extremes
  import opened Cells
  import opened ComplexFormat

  // ----- a list of values

  /** With reference r and the top codes kept free, w bits hold every value. */
  ghost predicate Held(vs: seq<int>, r: int, free: nat, w: nat)
  {
    forall i :: 0 <= i < |vs| ==> 0 <= vs[i] - r < Pow2(w) - free
  }

  /** The width settled holds the values, and none smaller does, whatever the reference. */
  lemma {:induction false} SpreadLeast(vs: seq<int>, free: nat, w: nat)
    requires vs != []
    ensures CeilLog2(MaxOf(vs) - MinOf(vs) + free + 1) <= w <==> exists r :: Held(vs, r, free, w)
  {
    hide MinOf, MaxOf, CeilLog2, Pow2;
    var lo, hi := MinOf(vs), MaxOf(vs);
    var n := CeilLog2(hi - lo + free + 1);
    if n <= w {
      Pow2Monotone(n, w);
      assert Held(vs, lo, free, w);
    }
    if r :| Held(vs, r, free, w) {
      var i, j :| 0 <= i < |vs| && 0 <= j < |vs| && vs[i] == lo && vs[j] == hi;
      assert 0 <= vs[i] - r && vs[j] - r < Pow2(w) - free;
    }
  }

  lemma {:induction false} SpreadEnough(vs: seq<int>, free: nat)
    requires vs != []
    ensures Held(vs, MinOf(vs), free, CeilLog2(MaxOf(vs) - MinOf(vs) + free + 1))
  {
    hide MinOf, MaxOf, CeilLog2, Pow2;
  }

  // ----- groups

  /** With reference r and width w every point has a code that stands for it. */
  ghost predicate Represents(g: seq<Cell>, r: int, w: nat, missopt: nat)
  {
    hide Pow2;
    forall i :: 0 <= i < |g| ==>
      var x := CellCode(g[i], r, w);
      0 <= x < Pow2(w) && CodeCell(x, r, w, missopt) == g[i]
  }

  /** The width of a group with data is the least at which some reference represents it. */
  lemma {:induction false} WidthIsLeast(g: seq<Cell>, missopt: nat, w: nat)
    requires missopt <= 2 && Allowed(g, missopt) && DataOf(g) != []
    ensures GroupWidth(g, missopt) <= w <==> exists r :: Represents(g, r, w, missopt)
    ensures Represents(g, GroupRef(g), GroupWidth(g, missopt), missopt)
  {
    hide MinOf, MaxOf, CeilLog2, Pow2, Represents, Held, DataOf;
    SpreadLeast(DataOf(g), missopt, w);
    SpreadEnough(DataOf(g), missopt);
    HeldRepresents(g, missopt, GroupRef(g), GroupWidth(g, missopt));
    if r :| Held(DataOf(g), r, missopt, w) { HeldRepresents(g, missopt, r, w); }
    if r :| Represents(g, r, w, missopt) { HeldRepresents(g, missopt, r, w); }
  }

  lemma {:induction false} HeldRepresents(g: seq<Cell>, missopt: nat, r: int, w: nat)
    requires missopt <= 2 && Allowed(g, missopt) && DataOf(g) != []
    ensures Represents(g, r, w, missopt) <==> Held(DataOf(g), r, missopt, w)
  {
    hide Pow2, DataOf;
    var ds := DataOf(g);
    if Held(ds, r, missopt, w) {
      assert 0 <= ds[0] - r < Pow2(w) - missopt;
      forall i | 0 <= i < |g|
        ensures var x := CellCode(g[i], r, w); 0 <= x < Pow2(w) && CodeCell(x, r, w, missopt) == g[i]
      {
        if g[i].Data? {
          DataOfMember(g, i);
          var k :| 0 <= k < |ds| && ds[k] == g[i].v;
        }
      }
    }
    if Represents(g, r, w, missopt) {
      forall k | 0 <= k < |ds| ensures 0 <= ds[k] - r < Pow2(w) - missopt {
        DataOfSource(g, ds[k]);
        var i :| 0 <= i < |g| && g[i] == Data(ds[k]);
        assert CellCode(g[i], r, w) == ds[k] - r;
      }
    }
  }

  /** Both kinds of missing points and no data take one bit a point, which is the least. */
  lemma {:induction false} MissingWidth(g: seq<Cell>, missopt: nat, w: nat)
    requires missopt <= 2 && Allowed(g, missopt) && DataOf(g) == [] && Primary in g && Secondary in g
    ensures GroupWidth(g, missopt) <= w <==> exists r :: Represents(g, r, w, missopt)
  {
    hide DataOf;
    var i :| 0 <= i < |g| && g[i] == Secondary;
    if w == 0 {
      assert forall r :: CellCode(g[i], r, w) < 0;
    } else {
      Pow2Monotone(1, w);
      forall k | 0 <= k < |g| ensures !g[k].Data? {
        if g[k].Data? { DataOfMember(g, k); }
      }
      assert Represents(g, 0, w, missopt);
    }
  }

  /** A group that needs codes. */
  ghost predicate NeedsCodes(g: seq<Cell>)
  {
    DataOf(g) != [] || (Primary in g && Secondary in g)
  }

  /** Some reference represents the group with width w; a group of one kind of missing points needs no codes. */
  ghost predicate Enough(g: seq<Cell>, missopt: nat, w: nat)
  {
    hide NeedsCodes, Represents;
    NeedsCodes(g) ==> exists r :: Represents(g, r, w, missopt)
  }

  lemma {:induction false} LeastEnough(g: seq<Cell>, missopt: nat, w: nat)
    requires missopt <= 2 && Allowed(g, missopt)
    ensures GroupWidth(g, missopt) <= w <==> Enough(g, missopt, w)
  {
    hide DataOf, Represents, MinOf, MaxOf, CeilLog2;
    if DataOf(g) != [] {
      WidthIsLeast(g, missopt, w);
    } else if Primary in g && Secondary in g {
      MissingWidth(g, missopt, w);
    }
  }

  // ----- all groups of a partition

  function Size(gs: seq<seq<Cell>>, ws: seq<nat>): (n: nat)
    requires |ws| == |gs|
  {
    if gs == [] then 0 else |gs[0]| * ws[0] + Size(gs[1..], ws[1..])
  }

  /** The data of a partition take no more bits than with any widths that represent its groups. */
  lemma {:induction false} DataBitsLeast(gs: seq<seq<Cell>>, missopt: nat, ws: seq<nat>)
    requires missopt <= 2 && |ws| == |gs|
    requires forall i :: 0 <= i < |gs| ==> Allowed(gs[i], missopt) && Enough(gs[i], missopt, ws[i])
    ensures |DataBits(gs, missopt)| <= Size(gs, ws)
  {
    hide GroupBits, Enough, GroupWidth;
    if gs != [] {
      DataBitsLeast(gs[1..], missopt, ws[1..]);
      LeastEnough(gs[0], missopt, ws[0]);
      GroupSize(gs[0], missopt);
      MulLe(GroupWidth(gs[0], missopt), ws[0], |gs[0]|);
    }
  }

  lemma {:induction false} GroupSize(g: seq<Cell>, missopt: nat)
    ensures |GroupBits(g, missopt)| == |g| * GroupWidth(g, missopt)
  {
    hide GroupWidth, GroupRef, EncAll;
    EncAllLength(Codes(g, GroupRef(g), GroupWidth(g, missopt)), GroupWidth(g, missopt));
  }

  /** The widths of the descriptors are the least too, whatever their references. */
  lemma {:induction false} DescriptorsLeast(gs: seq<seq<Cell>>, lens: seq<nat>, order: nat, missopt: nat, h: Header,
                                            w: nat)
    requires |gs| == |lens| > 0
    ensures var t := TemplateOf(gs, lens, order, missopt, h);
      && (t.nbitsgref <= w <==> forall i :: 0 <= i < |gs| ==> GroupRef(gs[i]) + missopt < Pow2(w))
      && (t.nbitsgwidth <= w <==> exists r :: Held(Widths(gs, missopt), r, 0, w))
      && (t.nbitsglen <= w <==> exists r :: Held(Inner(lens), r, 0, w))
  {
    hide MinOf, MaxOf, CeilLog2, Pow2, HeaderWidth, GroupRef, GroupWidth, Inner, Held;
    SpreadLeast(Widths(gs, missopt), 0, w);
    SpreadLeast(Inner(lens), 0, w);
    GreatestLeast(Refs(gs), missopt, w);
    assert forall i :: 0 <= i < |gs| ==> Refs(gs)[i] == GroupRef(gs[i]);
  }

  lemma {:induction false} GreatestLeast(vs: seq<int>, free: nat, w: nat)
    requires vs != []
    ensures CeilLog2(MaxOf(vs) + free + 1) <= w <==> forall i :: 0 <= i < |vs| ==> vs[i] + free < Pow2(w)
  {
    hide MaxOf, CeilLog2, Pow2;
    var n := CeilLog2(MaxOf(vs) + free + 1);
    if n <= w { Pow2Monotone(n, w); }
    var i :| 0 <= i < |vs| && vs[i] == MaxOf(vs);
  }

  /** The header takes the least whole number of octets with room for each value and a sign. */
  lemma {:induction false} HeaderLeast(ival1: int, ival2: int, minsd: int, n: nat)
    requires n >= 1 && n % 8 == 0
    ensures HeaderWidth(ival1, ival2, minsd) <= n <==>
      Abs(minsd) < Pow2(n - 1) && ival1 < Pow2(n - 1) && ival2 < Pow2(n - 1)
  {
    hide CeilLog2, Pow2;
    var m := HeaderWidth(ival1, ival2, minsd);
    if m <= n { Pow2Monotone(m - 1, n - 1); }
    var a, b := CeilLog2(Abs(minsd) + 1), CeilLog2((if ival2 > ival1 then ival2 else ival1) + 1);
    Up8Least(if b > a then b + 1 else a + 1, n);
  }

  lemma {:induction false} Up8Least(k: nat, n: nat)
    requires n % 8 == 0
    ensures Up8(k) <= n <==> k <= n
  {
  }
}
