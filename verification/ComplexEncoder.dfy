/**
 * `compack` (missopt 0) and `misspack` (missopt 1, 2) after the scaling to integers: differencing,
 * group splitting, references, widths and lengths, and the packed octets.
 */
module ComplexEncoder {
  import opened Shifts
  import opened BitString
  import opened BitIO
  import opened SignMagnitude
  import opened FieldIO
  import opened Extremes
  import opened Cells
  import opened Differencing
  import opened ComplexFormat

  // ----- appending to the packed octets

  /** A run of descriptors of w bits; nothing when w is 0. */
  method AppendRun(cpack: array<byte>, vs: seq<int>, w: nat, ghost s: seq<bit>, ghost done: seq<bit>, iofst0: nat)
    returns (iofst: nat)
    requires Holds(cpack, s, done) && iofst0 == |done| && |done + RunBits(vs, w)| <= |s|
    modifies cpack
    ensures iofst == |done + RunBits(vs, w)| && Holds(cpack, s, done + RunBits(vs, w))
  {
    hide Holds, Zeros, Up8, EncAll;
    iofst := iofst0;
    if w != 0 {
      EncAllLength(vs, w);
      AppendAll(cpack, vs, w, s, done, iofst);
      var itemp := |vs| * w;
      iofst := AppendPad(cpack, itemp, s, done + EncAll(vs, w), iofst + itemp);
      Assoc(done, EncAll(vs, w), Zeros(Up8(itemp) - itemp));
    } else {
      assert done + [] == done;
    }
  }

  method BitsForHeader(order: nat, h: Header) returns (nbitsd: nat)
    requires 1 <= order <= 2 && h.ival1 >= 0 && (order == 1 ==> h.ival2 == 0)
    ensures nbitsd == HeaderWidth(h.ival1, h.ival2, h.minsd) && nbitsd >= 8
  {
    hide CeilLog2, Pow2, Up8;
    nbitsd := CeilLog2(Abs(h.minsd) + 1) + 1;
    var maxorig := h.ival1;
    if order == 2 && h.ival2 > h.ival1 { maxorig := h.ival2; }
    var nbitorig := CeilLog2(maxorig + 1) + 1;
    if nbitorig > nbitsd { nbitsd := nbitorig; }
    nbitsd := WholeOctets(nbitsd);
    assert nbitsd >= 1 && nbitsd % 8 == 0;
  }

  method WholeOctets(n: nat) returns (m: nat)
    ensures m == Up8(n)
  {
    m := n;
    if n % 8 != 0 { m := n + (8 - n % 8); }
  }

  /** The spatial differencing header, in the least number of octets that holds its values. */
  method AppendHeader(cpack: array<byte>, order: nat, h: Header, ghost s: seq<bit>) returns (nbitsd: nat, iofst: nat)
    requires 1 <= order <= 2 && s == Bits(cpack[..]) && h.ival1 >= 0 && (order == 1 ==> h.ival2 == 0)
    requires |HeaderBits(order, h.ival1, h.ival2, h.minsd, HeaderWidth(h.ival1, h.ival2, h.minsd))| <= |s|
    modifies cpack
    ensures nbitsd == HeaderWidth(h.ival1, h.ival2, h.minsd)
    ensures var e := HeaderBits(order, h.ival1, h.ival2, h.minsd, nbitsd); iofst == |e| && Holds(cpack, s, e)
  {
    hide *;
    nbitsd := BitsForHeader(order, h);
    HoldsNothing(cpack);
    HeaderIs(order, h, nbitsd);
    ghost var a, b := SignedBits(h.ival1, nbitsd), SignedBits(h.ival2, nbitsd);
    AppendSigned(cpack, h.ival1, nbitsd, s, [], 0);
    iofst := nbitsd;
    assert [] + a == a;
    if order == 2 {
      AppendSigned(cpack, h.ival2, nbitsd, s, a, iofst);
      iofst := iofst + nbitsd;
      AppendSigned(cpack, h.minsd, nbitsd, s, a + b, iofst);
    } else {
      AppendSigned(cpack, h.minsd, nbitsd, s, a, iofst);
    }
    iofst := iofst + nbitsd;
  }

  lemma {:induction false} HeaderIs(order: nat, h: Header, n: nat)
    requires 1 <= order <= 2 && n >= 2
    ensures var a, b, c := SignedBits(h.ival1, n), SignedBits(h.ival2, n), SignedBits(h.minsd, n);
      && |a| == |b| == |c| == n
      && HeaderBits(order, h.ival1, h.ival2, h.minsd, n) == if order == 2 then a + b + c else a + c
  {
    hide SignedBits;
    assert SignedBits(h.ival1, n) + [] == SignedBits(h.ival1, n);
  }

  // ----- references, widths and codes of the groups

  /** The array holds the data of g from index n on, and miss tells its missing points. */
  ghost predicate Lies(ifld: seq<int>, miss: seq<int>, n: nat, g: seq<Cell>)
  {
    && n + |g| <= |ifld| == |miss|
    && forall x :: 0 <= x < |g| ==> miss[n + x] == ClassOf(g[x]) && (g[x].Data? ==> ifld[n + x] == g[x].v)
  }

  lemma {:induction false} FoundData(g: seq<Cell>, k: nat)
    requires k < |g|
    ensures DataOf(g[..k + 1]) == DataOf(g[..k]) + (if g[k].Data? then [g[k].v] else [])
    ensures forall c :: c in g[..k + 1] <==> c in g[..k] || c == g[k]
  {
    SnocCell(g, k);
    assert g[..k + 1] == g[..k] + [g[k]];
  }

  /** How many of the points are data, primary and secondary missing. */
  method Tally(miss: seq<int>, n: nat, len: nat, ghost ifld: seq<int>, ghost g: seq<Cell>)
    returns (num0: nat, num1: nat, num2: nat)
    requires len == |g| && Lies(ifld, miss, n, g)
    ensures num0 == |DataOf(g)| && (num1 == 0 <==> Primary !in g) && (num2 == 0 <==> Secondary !in g)
  {
    hide DataOf;
    num0, num1, num2 := 0, 0, 0;
    NoCells();
    assert g[..0] == [];
    for k := 0 to len
      invariant num0 == |DataOf(g[..k])|
      invariant (num1 == 0 <==> Primary !in g[..k]) && (num2 == 0 <==> Secondary !in g[..k])
    {
      FoundData(g, k);
      if miss[n + k] == 0 { num0 := num0 + 1; }
      if miss[n + k] == 1 { num1 := num1 + 1; }
      if miss[n + k] == 2 { num2 := num2 + 1; }
    }
    assert g[..len] == g;
  }

  const HUGE := 2147483647

  /** Least and greatest data value of a group that has some. */
  method DataExtremes(ifld: array<int>, miss: seq<int>, n: nat, len: nat, ghost g: seq<Cell>) returns (lo: int, hi: int)
    requires len == |g| && Lies(ifld[..], miss, n, g) && DataOf(g) != []
    requires forall v :: v in DataOf(g) ==> 0 <= v < HUGE
    ensures lo == MinOf(DataOf(g)) && hi == MaxOf(DataOf(g))
  {
    hide DataOf, MinOf, MaxOf;
    lo, hi := HUGE, -HUGE;
    NoCells();
    assert g[..0] == [];
    ghost var ds: seq<int> := [];
    for k := 0 to len
      invariant ds == DataOf(g[..k]) && (ds == [] ==> lo == HUGE && hi == -HUGE)
      invariant forall v :: v in ds ==> lo <= v <= hi
      invariant ds != [] ==> lo in ds && hi in ds
    {
      FoundData(g, k);
      if miss[n + k] == 0 {
        var v := ifld[n + k];
        assert v in DataOf(g) by { DataOfMember(g, k); }
        if v < lo { lo := v; }
        if v > hi { hi := v; }
        ds := ds + [v];
      }
    }
    assert g[..len] == g;
    assert forall i :: 0 <= i < |ds| ==> ds[i] in ds;
    MinIs(ds, lo);
    MaxIs(ds, hi);
  }

  /** Replaces the values of a group by their codes. */
  method Encode(ifld: array<int>, miss: seq<int>, n: nat, len: nat, ref: int, w: nat, ghost g: seq<Cell>)
    requires len == |g| && Lies(ifld[..], miss, n, g)
    modifies ifld
    ensures ifld[n..n + len] == Codes(g, ref, w)
    ensures forall x :: 0 <= x < ifld.Length && !(n <= x < n + len) ==> ifld[x] == old(ifld[x])
  {
    hide Pow2;
    var mtemp: int := Pow2(w);
    for k := 0 to len
      invariant forall x :: n <= x < n + k ==> ifld[x] == CellCode(g[x - n], ref, w)
      invariant forall x :: 0 <= x < ifld.Length && !(n <= x < n + k) ==> ifld[x] == old(ifld[x])
    {
      if miss[n + k] == 0 {
        ifld[n + k] := ifld[n + k] - ref;
      } else if miss[n + k] == 1 {
        ifld[n + k] := mtemp - 1;
      } else {
        ifld[n + k] := mtemp - 2;
      }
    }
  }

  /** Reference and width of a group. */
  method Describe(ifld: array<int>, miss: seq<int>, n: nat, len: nat, missopt: nat, ghost g: seq<Cell>)
    returns (ref: int, w: nat)
    requires len == |g| && Lies(ifld[..], miss, n, g) && missopt <= 2
    requires forall v :: v in DataOf(g) ==> 0 <= v < HUGE
    ensures ref == GroupRef(g) && w == GroupWidth(g, missopt)
  {
    hide DataOf, MinOf, MaxOf, Pow2, CeilLog2, Lies;
    var num0, num1, num2 := Tally(miss, n, len, ifld[..], g);
    if num0 == 0 {
      if num1 == 0 {
        ref, w := -2, 0;
      } else if num2 == 0 {
        ref, w := -1, 0;
      } else {
        ref, w := 0, 1;
      }
    } else {
      var imax;
      ref, imax := DataExtremes(ifld, miss, n, len, g);
      imax := imax + missopt;
      w := if ref != imax then CeilLog2(imax - ref + 1) else 0;
      CeilLog2Zero(1);
    }
  }

  // ----- all groups

  /** Group k of the partition, as points of the whole field. */
  lemma {:induction false} GroupAt(rc: seq<Cell>, lens: seq<nat>, k: nat)
    requires Sum(lens) == |rc| && k < |lens|
    ensures Sum(lens[..k + 1]) == Sum(lens[..k]) + lens[k] <= |rc|
    ensures Split(rc, lens)[k] == rc[Sum(lens[..k])..Sum(lens[..k]) + lens[k]]
  {
    hide Split, Sum;
    if k == 0 {
      FirstGroup(rc, lens);
    } else {
      SplitFirst(rc, lens, k);
      var rest, tail := rc[lens[0]..], lens[1..];
      GroupAt(rest, tail, k - 1);
      SumFirst(lens[..k + 1]);
      SumFirst(lens[..k]);
      assert lens[..k + 1][1..] == tail[..k] && lens[..k][1..] == tail[..k - 1];
      SliceOfTail(rc, lens[0], Sum(tail[..k - 1]), Sum(tail[..k - 1]) + lens[k]);
    }
  }

  lemma {:induction false} FirstGroup(rc: seq<Cell>, lens: seq<nat>)
    requires Sum(lens) == |rc| && lens != []
    ensures Sum(lens[..1]) == lens[0] <= |rc| && Sum(lens[..0]) == 0 && Split(rc, lens)[0] == rc[0..lens[0]]
  {
    assert lens[..1][1..] == [] && lens[..0] == [];
  }

  lemma {:induction false} SumFirst(lens: seq<nat>)
    requires lens != []
    ensures Sum(lens) == lens[0] + Sum(lens[1..])
  {
  }

  lemma {:induction false} SplitFirst(rc: seq<Cell>, lens: seq<nat>, k: nat)
    requires Sum(lens) == |rc| && 0 < k < |lens|
    ensures lens[0] <= |rc| && Sum(lens[1..]) == |rc| - lens[0]
    ensures Split(rc, lens)[k] == Split(rc[lens[0]..], lens[1..])[k - 1]
  {
  }

  /** The array holds the codes of g from index n on. */
  ghost predicate Coded(ifld: seq<int>, n: nat, g: seq<Cell>, missopt: nat)
  {
    n + |g| <= |ifld| && ifld[n..n + |g|] == Codes(g, GroupRef(g), GroupWidth(g, missopt))
  }

  ghost predicate AllCoded(ifld: seq<int>, rc: seq<Cell>, lens: seq<nat>, missopt: nat, m: nat)
    requires Sum(lens) == |rc| && m <= |lens|
  {
    forall k :: 0 <= k < m ==> Coded(ifld, Sum(lens[..k]), Split(rc, lens)[k], missopt)
  }

  lemma {:induction false} SumMonotone(lens: seq<nat>, j: nat, k: nat)
    requires j <= k <= |lens|
    ensures Sum(lens[..j]) <= Sum(lens[..k])
  {
    if j < k {
      SumMonotone(lens, j, k - 1);
      var l := lens[..k];
      assert Sum(l) == |seq(Sum(l), _ => Primary)|;
      GroupAt(seq(Sum(l), _ => Primary), l, k - 1);
      assert l[..k - 1] == lens[..k - 1] && l[..k] == lens[..k];
    }
  }

  lemma {:induction false} StillCoded(ifld: seq<int>, ifld': seq<int>, rc: seq<Cell>, lens: seq<nat>, missopt: nat,
                                      m: nat)
    requires Sum(lens) == |rc| && m < |lens| && AllCoded(ifld, rc, lens, missopt, m) && |ifld'| == |ifld|
    requires Sum(lens[..m]) <= |ifld| && ifld'[..Sum(lens[..m])] == ifld[..Sum(lens[..m])]
    requires Coded(ifld', Sum(lens[..m]), Split(rc, lens)[m], missopt)
    ensures AllCoded(ifld', rc, lens, missopt, m + 1)
  {
    hide Codes, GroupRef, GroupWidth, Sum, Split;
    var n := Sum(lens[..m]);
    forall k | 0 <= k < m ensures Coded(ifld', Sum(lens[..k]), Split(rc, lens)[k], missopt) {
      GroupAt(rc, lens, k);
      SumMonotone(lens, k + 1, m);
      var a, b := Sum(lens[..k]), Sum(lens[..k + 1]);
      assert Coded(ifld, a, Split(rc, lens)[k], missopt);
      assert ifld'[a..b] == ifld'[..n][a..b] == ifld[a..b];
    }
  }

  /** Describes and encodes every group. */
  method DescribeAll(ifld: array<int>, miss: seq<int>, glen: seq<nat>, missopt: nat, ghost rc: seq<Cell>)
    returns (gref: seq<int>, gwidth: seq<nat>)
    requires Lies(ifld[..], miss, 0, rc) && Sum(glen) == |rc| == ifld.Length && missopt <= 2
    requires forall v :: v in DataOf(rc) ==> 0 <= v < HUGE
    modifies ifld
    ensures gref == Refs(Split(rc, glen)) && gwidth == Widths(Split(rc, glen), missopt)
    ensures AllCoded(ifld[..], rc, glen, missopt, |glen|)
  {
    hide DataOf, Codes, GroupRef, GroupWidth, Sum, Split, Coded, AllCoded, Pow2;
    ghost var gs := Split(rc, glen);
    gref, gwidth := [], [];
    var n := 0;
    NoneCoded(ifld[..], rc, glen, missopt);
    for ng := 0 to |glen|
      invariant n == Sum(glen[..ng]) <= |rc|
      invariant |gref| == |gwidth| == ng
      invariant forall k :: 0 <= k < ng ==> gref[k] == GroupRef(gs[k]) && gwidth[k] == GroupWidth(gs[k], missopt)
      invariant AllCoded(ifld[..], rc, glen, missopt, ng)
      invariant forall x :: n <= x < |rc| ==> ifld[x] == old(ifld[x])
    {
      GroupAt(rc, glen, ng);
      ghost var g := gs[ng];
      assert Lies(ifld[..], miss, n, g);
      GroupData(rc, glen, ng);
      var ref, w := Describe(ifld, miss, n, glen[ng], missopt, g);
      ghost var before := ifld[..];
      Encode(ifld, miss, n, glen[ng], ref, w, g);
      assert Coded(ifld[..], n, g, missopt) by { CodedIs(ifld[..], n, g, missopt); }
      StillCoded(before, ifld[..], rc, glen, missopt, ng);
      gref, gwidth := gref + [ref], gwidth + [w];
      n := n + glen[ng];
    }
  }

  lemma {:induction false} NoneCoded(ifld: seq<int>, rc: seq<Cell>, lens: seq<nat>, missopt: nat)
    requires Sum(lens) == |rc|
    ensures AllCoded(ifld, rc, lens, missopt, 0) && Sum(lens[..0]) == 0
  {
  }

  lemma {:induction false} CodedIs(ifld: seq<int>, n: nat, g: seq<Cell>, missopt: nat)
    requires n + |g| <= |ifld| && ifld[n..n + |g|] == Codes(g, GroupRef(g), GroupWidth(g, missopt))
    ensures Coded(ifld, n, g, missopt)
  {
  }

  lemma {:induction false} GroupData(rc: seq<Cell>, lens: seq<nat>, k: nat)
    requires Sum(lens) == |rc| && k < |lens| && forall v :: v in DataOf(rc) ==> 0 <= v < HUGE
    ensures forall v :: v in DataOf(Split(rc, lens)[k]) ==> 0 <= v < HUGE
  {
    hide DataOf, Sum, Split;
    forall v | v in DataOf(Split(rc, lens)[k]) ensures 0 <= v < HUGE {
      DataOfSource(Split(rc, lens)[k], v);
      SplitMembers(rc, lens, k, Data(v));
      var x :| 0 <= x < |rc| && rc[x] == Data(v);
      DataOfMember(rc, x);
    }
  }

  // ----- packing the descriptors and the data

  method Range(vs: seq<int>) returns (lo: int, hi: int)
    requires vs != []
    ensures lo == MinOf(vs) && hi == MaxOf(vs)
  {
    hide MinOf, MaxOf;
    lo, hi := vs[0], vs[0];
    for j := 1 to |vs|
      invariant lo in vs && hi in vs && forall i :: 0 <= i < j ==> lo <= vs[i] <= hi
    {
      if vs[j] > hi { hi := vs[j]; }
      if vs[j] < lo { lo := vs[j]; }
    }
    MinIs(vs, lo);
    MaxIs(vs, hi);
  }

  lemma {:induction false} DataBitsCons(gs: seq<seq<Cell>>, missopt: nat)
    requires gs != []
    ensures DataBits(gs, missopt) == GroupBits(gs[0], missopt) + DataBits(gs[1..], missopt)
  {
    hide GroupBits;
  }

  lemma {:induction false} DataBitsConcat(gs: seq<seq<Cell>>, hs: seq<seq<Cell>>, missopt: nat)
    ensures DataBits(gs + hs, missopt) == DataBits(gs, missopt) + DataBits(hs, missopt)
  {
    hide *;
    if gs == [] {
      assert gs + hs == hs;
      NoBits(missopt);
      assert [] + DataBits(hs, missopt) == DataBits(hs, missopt);
    } else {
      DataBitsConcat(gs[1..], hs, missopt);
      TailOfConcat(gs, hs);
      DataBitsCons(gs + hs, missopt);
      DataBitsCons(gs, missopt);
      Assoc(GroupBits(gs[0], missopt), DataBits(gs[1..], missopt), DataBits(hs, missopt));
    }
  }

  lemma {:induction false} DataBitsStep(gs: seq<seq<Cell>>, k: nat, missopt: nat)
    requires k < |gs|
    ensures DataBits(gs[..k + 1], missopt) == DataBits(gs[..k], missopt) + GroupBits(gs[k], missopt)
    ensures |DataBits(gs[..k], missopt)| + |GroupBits(gs[k], missopt)| <= |DataBits(gs, missopt)|
  {
    hide GroupBits;
    assert gs[..k + 1] == gs[..k] + [gs[k]] && gs == gs[..k + 1] + gs[k + 1..];
    DataBitsConcat(gs[..k], [gs[k]], missopt);
    DataBitsConcat(gs[..k + 1], gs[k + 1..], missopt);
    assert [gs[k]][1..] == [] && DataBits([], missopt) == [];
  }

  lemma {:induction false} GroupBitsCoded(g: seq<Cell>, missopt: nat, ifld: seq<int>, n: nat)
    requires Coded(ifld, n, g, missopt)
    ensures GroupWidth(g, missopt) == 0 ==> GroupBits(g, missopt) == []
    ensures GroupWidth(g, missopt) > 0 ==> GroupBits(g, missopt) == EncAll(ifld[n..n + |g|], GroupWidth(g, missopt))
    ensures |GroupBits(g, missopt)| == GroupWidth(g, missopt) * |g|
  {
    hide EncAll;
    EncAllLength(Codes(g, GroupRef(g), GroupWidth(g, missopt)), GroupWidth(g, missopt));
  }

  /**
   * The codes of all groups.  Widths and lengths come with their references taken off, as they
   * were packed; the last length is kept apart.
   */
  method PackData(cpack: array<byte>, ifld: array<int>, gwidth: seq<int>, ngwidthref: nat, glen: seq<int>,
                  nglenref: nat, nglenlast: nat, iofst0: nat, missopt: nat, ghost rc: seq<Cell>, ghost lens: seq<nat>,
                  ghost s: seq<bit>, ghost done: seq<bit>)
    returns (iofst: nat)
    requires Sum(lens) == |rc| && |gwidth| == |glen| == |lens| > 0 && AllCoded(ifld[..], rc, lens, missopt, |lens|)
    requires forall k :: 0 <= k < |lens| ==> gwidth[k] + ngwidthref == GroupWidth(Split(rc, lens)[k], missopt)
    requires forall k :: 0 <= k < |lens| - 1 ==> glen[k] + nglenref == lens[k]
    requires nglenlast == lens[|lens| - 1]
    requires Holds(cpack, s, done) && iofst0 == |done| && |done + DataBits(Split(rc, lens), missopt)| <= |s|
    modifies cpack
    ensures iofst == |done + DataBits(Split(rc, lens), missopt)|
    ensures Holds(cpack, s, done + DataBits(Split(rc, lens), missopt))
  {
    hide Holds, DataBits, GroupBits, GroupWidth, GroupRef, EncAll, Sum, Split, Coded, Codes;
    ghost var gs := Split(rc, lens);
    iofst := iofst0;
    var n := 0;
    assert gs[..0] == [] && lens[..0] == [];
    NoBits(missopt);
    assert done + [] == done;
    for ng := 0 to |gwidth|
      invariant n == Sum(lens[..ng])
      invariant iofst == |done + DataBits(gs[..ng], missopt)| && Holds(cpack, s, done + DataBits(gs[..ng], missopt))
    {
      var glength := glen[ng] + nglenref;
      if ng == |glen| - 1 { glength := nglenlast; }
      var grpwidth := gwidth[ng] + ngwidthref;
      GroupAt(rc, lens, ng);
      DataBitsStep(gs, ng, missopt);
      assert Coded(ifld[..], n, gs[ng], missopt);
      GroupBitsCoded(gs[ng], missopt, ifld[..], n);
      InRange(ifld[..], n, gs[ng], missopt);
      Assoc(done, DataBits(gs[..ng], missopt), GroupBits(gs[ng], missopt));
      if grpwidth != 0 {
        assert ifld[..][n..n + glength] == ifld[n..n + glength];
        AppendAll(cpack, ifld[n..n + glength], grpwidth, s, done + DataBits(gs[..ng], missopt), iofst);
        iofst := iofst + grpwidth * glength;
      } else {
        assert done + DataBits(gs[..ng], missopt) + [] == done + DataBits(gs[..ng], missopt);
      }
      n := n + glength;
    }
    assert gs[..|gs|] == gs;
  }

  lemma {:induction false} InRange(ifld: seq<int>, n: nat, g: seq<Cell>, missopt: nat)
    requires Coded(ifld, n, g, missopt)
    ensures n + |g| <= |ifld|
  {
  }

  lemma {:induction false} NoBits(missopt: nat)
    ensures DataBits([], missopt) == [] && Sum([]) == 0
  {
  }

  lemma {:induction false} Regroup(h: seq<bit>, r: seq<bit>, w: seq<bit>, l: seq<bit>, d: seq<bit>)
    ensures h + (r + w + l + d) == h + r + w + l + d
  {
  }

  function StoredAll(rs: seq<int>, nb: nat): (r: seq<int>)
    ensures |r| == |rs|
  {
    seq(|rs|, i requires 0 <= i < |rs| => StoredRef(rs[i], nb))
  }

  lemma {:induction false} WidthSum(ws: seq<int>, stored: seq<int>, ref: int, w: nat)
    requires ws != [] && |stored| == |ws| && ref == MinOf(ws) && w == CeilLog2(MaxOf(ws) - ref + 1)
    requires stored == if w == 0 then seq(|ws|, _ => 0) else Minus(ws, ref)
    ensures forall k :: 0 <= k < |ws| ==> stored[k] + ref == ws[k]
  {
    if w == 0 {
      assert Pow2(0) == 1;
    }
  }

  lemma {:induction false} LenSum(lens: seq<nat>, stored: seq<int>, ref: int, w: nat)
    requires lens != [] && ref == MinOf(Inner(lens)) && w == CeilLog2(MaxOf(Inner(lens)) - ref + 1)
    requires stored == if w == 0 then seq(|lens|, _ => 0) else StoredLens(lens, ref)
    ensures forall k :: 0 <= k < |lens| - 1 ==> stored[k] + ref == lens[k]
  {
    if w == 0 {
      assert Pow2(0) == 1;
      forall k | 0 <= k < |lens| - 1 ensures lens[k] == ref { assert Inner(lens)[k] == lens[k]; }
    }
  }

  /** The groups described and encoded, and the template. */
  method Plan(ifld: array<int>, miss: seq<int>, glen: seq<nat>, order: nat, missopt: nat, nbitsd: nat,
              ghost rc: seq<Cell>, ghost h: Header)
    returns (t: Drt, gref: seq<int>, gwidth: seq<nat>)
    requires Lies(ifld[..], miss, 0, rc) && Sum(glen) == |rc| == ifld.Length && missopt <= 2 && glen != []
    requires forall v :: v in DataOf(rc) ==> 0 <= v < HUGE
    requires nbitsd == if order == 0 then 0 else HeaderWidth(h.ival1, h.ival2, h.minsd)
    modifies ifld
    ensures t == TemplateOf(Split(rc, glen), glen, order, missopt, h) && t.nbitsd == nbitsd
    ensures gref == Refs(Split(rc, glen)) && gwidth == Widths(Split(rc, glen), missopt)
    ensures AllCoded(ifld[..], rc, glen, missopt, |glen|)
  {
    hide Sum, Split, Lies, AllCoded, DataOf, HeaderWidth, Inner, Refs, Widths, MinOf, MaxOf, CeilLog2, Pow2;
    gref, gwidth := DescribeAll(ifld, miss, glen, missopt, rc);
    var _, igmax := Range(gref);
    var ngwidthref, iwmax := Range(gwidth);
    var nglenref, ilmax := Range(if |glen| == 1 then glen else glen[..|glen| - 1]);
    InnerIs(glen);
    t := Drt(order, missopt, CeilLog2(igmax + missopt + 1), |glen|, ngwidthref, CeilLog2(iwmax - ngwidthref + 1),
             nglenref, 1, glen[|glen| - 1], CeilLog2(ilmax - nglenref + 1), nbitsd);
  }

  /** The descriptors and the data, after the differencing header hb. */
  method Lay(cpack: array<byte>, ifld: array<int>, t: Drt, gref: seq<int>, gwidth: seq<nat>, glen: seq<nat>,
             iofst0: nat, ghost rc: seq<Cell>, ghost h: Header, ghost s: seq<bit>, ghost hb: seq<bit>)
    returns (lcpack: nat)
    requires Sum(glen) == |rc| && glen != [] && (t.order == 0 || t.nbitsd >= 1)
    requires t == TemplateOf(Split(rc, glen), glen, t.order, t.missopt, h)
    requires gref == Refs(Split(rc, glen)) && gwidth == Widths(Split(rc, glen), t.missopt)
    requires AllCoded(ifld[..], rc, glen, t.missopt, |glen|)
    requires hb == if t.order == 0 then [] else HeaderBits(t.order, h.ival1, h.ival2, h.minsd, t.nbitsd)
    requires Holds(cpack, s, hb) && iofst0 == |hb| && |FieldBits(Split(rc, glen), glen, t, h)| <= |s|
    modifies cpack
    ensures var e := FieldBits(Split(rc, glen), glen, t, h); 8 * lcpack == |e| && Holds(cpack, s, e)
  {
    hide Holds, DataBits, GroupWidth, GroupRef, Sum, Split, AllCoded, DataOf, HeaderWidth, HeaderBits, RunBits, Inner,
         StoredRef, StoredLens, StoredRefs, StoredAll, Minus, Refs, Widths, MinOf, MaxOf, CeilLog2, Pow2, Zeros, Up8;
    ghost var gs := Split(rc, glen);
    StoredAllIs(gs, t.nbitsgref);
    InnerIs(glen);
    ghost var r, w :=
      RunBits(StoredRefs(gs, t.nbitsgref), t.nbitsgref), RunBits(Minus(gwidth, t.ngwidthref), t.nbitsgwidth);
    ghost var l, d := RunBits(StoredLens(glen, t.nglenref), t.nbitsglen), DataBits(gs, t.missopt);
    Regroup(hb, r, w, l, d);
    PadBits(hb + r + w + l + d);
    var iofst := AppendRun(cpack, StoredAll(gref, t.nbitsgref), t.nbitsgref, s, hb, iofst0);
    iofst := AppendRun(cpack, Minus(gwidth, t.ngwidthref), t.nbitsgwidth, s, hb + r, iofst);
    iofst := AppendRun(cpack, StoredLens(glen, t.nglenref), t.nbitsglen, s, hb + r + w, iofst);
    lcpack := LayData(cpack, ifld, t, gwidth, glen, iofst, rc, h, s, hb + r + w + l);
    assert hb + r + w + l + d == hb + BodyBits(gs, glen, t);
  }

  /** The data behind the descriptors, and zeros to the end of the octet. */
  method LayData(cpack: array<byte>, ifld: array<int>, t: Drt, gwidth: seq<nat>, glen: seq<nat>, iofst0: nat,
                 ghost rc: seq<Cell>, ghost h: Header, ghost s: seq<bit>, ghost done: seq<bit>)
    returns (lcpack: nat)
    requires Sum(glen) == |rc| && glen != [] && t == TemplateOf(Split(rc, glen), glen, t.order, t.missopt, h)
    requires gwidth == Widths(Split(rc, glen), t.missopt) && AllCoded(ifld[..], rc, glen, t.missopt, |glen|)
    requires Holds(cpack, s, done) && iofst0 == |done| && |Pad8(done + DataBits(Split(rc, glen), t.missopt))| <= |s|
    modifies cpack
    ensures var e := Pad8(done + DataBits(Split(rc, glen), t.missopt)); 8 * lcpack == |e| && Holds(cpack, s, e)
  {
    hide Holds, DataBits, GroupWidth, GroupRef, Sum, Split, AllCoded, HeaderWidth, Inner, StoredLens, Minus, Refs,
         Widths, MinOf, MaxOf, CeilLog2, Pow2, Zeros, Up8;
    var sw := if t.nbitsgwidth == 0 then seq(|gwidth|, _ => 0) else Minus(gwidth, t.ngwidthref);
    var sl := if t.nbitsglen == 0 then seq(|glen|, _ => 0) else StoredLens(glen, t.nglenref);
    InnerIs(glen);
    WidthSum(gwidth, sw, t.ngwidthref, t.nbitsgwidth);
    LenSum(glen, sl, t.nglenref, t.nbitsglen);
    WidthsAre(Split(rc, glen), t.missopt);
    ghost var d := DataBits(Split(rc, glen), t.missopt);
    PadBits(done + d);
    var iofst := PackData(cpack, ifld, sw, t.ngwidthref, sl, t.nglenref, t.nglenlast, iofst0, t.missopt, rc, glen, s,
                          done);
    iofst := AppendPad(cpack, iofst, s, done + d, iofst);
    lcpack := iofst / 8;
  }

  lemma {:induction false} WidthsAre(gs: seq<seq<Cell>>, missopt: nat)
    ensures forall k :: 0 <= k < |gs| ==> Widths(gs, missopt)[k] == GroupWidth(gs[k], missopt)
  {
    hide GroupWidth;
  }

  lemma {:induction false} InnerIs(lens: seq<nat>)
    requires lens != []
    ensures Inner(lens) == if |lens| == 1 then lens else lens[..|lens| - 1]
  {
  }

  lemma {:induction false} StoredAllIs(gs: seq<seq<Cell>>, nb: nat)
    ensures StoredAll(Refs(gs), nb) == StoredRefs(gs, nb)
  {
  }

  lemma {:induction false} PadBits(b: seq<bit>)
    ensures Pad8(b) == b + Zeros(Up8(|b|) - |b|) && |Pad8(b)| == Up8(|b|) && Up8(|b|) % 8 == 0
  {
  }
}
