/** `comunpack`, up to the scaling to reals: from the packed octets to data and missing points. */
module ComplexDecoder {
  import opened Options
  import opened Shifts
  import opened BitString
  import opened BitIO
  import opened SignMagnitude
  import opened FieldIO
  import opened Extremes
  import opened Cells
  import opened Differencing
  import opened ComplexFormat

  /** A signed field, after checking that its octets are there. */
  method NextSigned(cpack: array<byte>, iofst: nat, n: nat) returns (ok: bool, v: int, iofst': nat)
    requires n >= 2 && n % 8 == 0 && iofst <= 8 * cpack.Length && iofst % 8 == 0
    ensures ok ==> iofst' <= 8 * cpack.Length && iofst' % 8 == 0
    ensures FetchSigned(Bits(cpack[..])[iofst..], n) == if ok then Some((v, Bits(cpack[..])[iofst'..])) else None
  {
    hide Bits, SignedValue;
    ghost var s := Bits(cpack[..]);
    ok, v, iofst' := iofst + n <= 8 * cpack.Length, 0, iofst;
    if ok {
      v := ReadSigned(cpack, iofst, n);
      iofst' := iofst + n;
      assert s[iofst..][..n] == s[iofst..iofst + n] && s[iofst..][n..] == s[iofst'..];
    }
  }

  method ReadHeader(cpack: array<byte>, order: nat, nbitsd: nat) returns (ok: bool, h: Header, iofst: nat)
    requires nbitsd % 8 == 0
    ensures ok ==> iofst <= 8 * cpack.Length && iofst % 8 == 0
    ensures FetchHeader(Bits(cpack[..]), order, nbitsd) == if ok then Some((h, Bits(cpack[..])[iofst..])) else None
  {
    hide Bits, FetchSigned;
    ok, h, iofst := true, Header(0, 0, 0), 0;
    assert Bits(cpack[..])[0..] == Bits(cpack[..]);
    if order == 0 || nbitsd == 0 { return; }
    var ival1, ival2, minsd := 0, 0, 0;
    ok, ival1, iofst := NextSigned(cpack, iofst, nbitsd);
    if !ok { return; }
    if order == 2 {
      ok, ival2, iofst := NextSigned(cpack, iofst, nbitsd);
      if !ok { return; }
    }
    ok, minsd, iofst := NextSigned(cpack, iofst, nbitsd);
    h := Header(ival1, ival2, minsd);
  }

  lemma {:induction false} PaddedInside(iofst: nat, n: nat, size: nat)
    requires iofst % 8 == 0 && size % 8 == 0 && iofst + n <= size
    ensures iofst + Up8(n) <= size && (iofst + Up8(n)) % 8 == 0
  {
    Up8Inside(iofst, n, size);
  }

  /** The offset after n bits and their padding. */
  method SkipPadded(iofst: nat, n: nat) returns (o: nat)
    ensures o == iofst + Up8(n)
  {
    o := iofst + n;
    if n % 8 != 0 { o := o + (8 - n % 8); }
  }

  lemma {:induction false} NextRun(s: seq<bit>, iofst: nat, w: nat, n: nat, itemp: nat)
    requires w > 0 && itemp == w * n && iofst <= |s| && |s| % 8 == 0 && iofst % 8 == 0
    ensures itemp == n * w
    ensures iofst + itemp > |s| ==> FetchRun(s[iofst..], w, n) == None
    ensures iofst + itemp <= |s| ==> iofst + Up8(itemp) <= |s| && (iofst + Up8(itemp)) % 8 == 0
    ensures iofst + itemp <= |s| ==>
      FetchRun(s[iofst..], w, n) == Some((DecAll(s[iofst..], w, n), s[iofst + Up8(itemp)..]))
  {
    hide DecAll, Up8;
    assert itemp == n * w;
    if iofst + itemp <= |s| {
      PaddedInside(iofst, itemp, |s|);
      SliceOfTail(s, iofst, Up8(itemp), |s| - iofst);
    }
  }

  /** A run of n values of width w, zeros when w is 0, and the offset after its padding. */
  method ReadRun(cpack: array<byte>, iofst: nat, w: nat, n: nat) returns (ok: bool, vs: seq<nat>, iofst': nat)
    requires iofst <= 8 * cpack.Length && iofst % 8 == 0
    ensures ok ==> |vs| == n && iofst' <= 8 * cpack.Length && iofst' % 8 == 0
    ensures FetchRun(Bits(cpack[..])[iofst..], w, n) == if ok then Some((vs, Bits(cpack[..])[iofst'..])) else None
  {
    hide DecAll, Bits, Up8, FetchRun;
    ok, vs, iofst' := true, seq(n, _ => 0), iofst;
    if w != 0 {
      var itemp := w * n;
      NextRun(Bits(cpack[..]), iofst, w, n, itemp);
      if iofst + itemp > 8 * cpack.Length {
        return false, vs, iofst;
      }
      vs := GbitsRun(cpack, iofst, w, n);
      iofst' := SkipPadded(iofst, itemp);
    } else {
      ZeroRun(Bits(cpack[..])[iofst..], n);
    }
  }

  lemma {:induction false} ZeroRun(s: seq<bit>, n: nat)
    ensures FetchRun(s, 0, n) == Some((seq(n, _ => 0), s))
  {
  }

  // ----- groups

  /** `gbits` into the array from index n on. */
  method FetchInto(cpack: array<byte>, ifld: array<int>, n: nat, iofst: nat, w: nat, len: nat)
    requires w > 0 && iofst + len * w <= 8 * cpack.Length && n + len <= ifld.Length
    modifies ifld
    ensures forall x :: 0 <= x < len ==> ifld[n + x] == DecAll(Bits(cpack[..])[iofst..], w, len)[x]
    ensures forall x :: 0 <= x < n ==> ifld[x] == old(ifld[x])
  {
    hide DecAll, Bits;
    ghost var a := cpack[..];
    var xs := GbitsRun(cpack, iofst, w, len);
    for i := 0 to len
      invariant forall x :: 0 <= x < i ==> ifld[n + x] == xs[x]
      invariant forall x :: 0 <= x < n ==> ifld[x] == old(ifld[x])
    {
      ifld[n + i] := xs[i];
    }
    assert cpack[..] == a;
  }

  /**
   * A group of width w > 0 under missing-value management: the values are fetched to where they
   * belong and the data among them moved up to follow the data found so far, at `non`.
   */
  method UnpackWide(cpack: array<byte>, ifld: array<int>, n: nat, non0: nat, iofst: nat, w: nat, len: nat, ref: int,
                    missopt: nat, ghost nb: nat)
    returns (non: nat, miss: seq<int>)
    requires w > 0 && iofst + len * w <= 8 * cpack.Length && non0 <= n && n + len <= ifld.Length && 1 <= missopt <= 2
    modifies ifld
    ensures var cs := GroupCells(Bits(cpack[..])[iofst..], ref, w, len, missopt, nb);
            miss == Classes(cs) && non == non0 + |DataOf(cs)| <= n + len &&
              ifld[..non] == old(ifld[..non0]) + DataOf(cs)
  {
    hide DecAll, DataOf, Classes, Bits, GroupCells, Pow2;
    ghost var a := cpack[..];
    ghost var s := Bits(a)[iofst..];
    ghost var cs := GroupCells(s, ref, w, len, missopt, nb);
    ghost var xs := DecAll(s, w, len);
    ghost var front := ifld[..non0];
    FetchInto(cpack, ifld, n, iofst, w, len);
    assert cpack[..] == a && ifld[..non0] == front;
    var msng1 := Pow2(w) - 1;
    var msng2 := msng1 - 1;
    non, miss := non0, [];
    assert cs[..0] == [];
    NoCells();
    for k := 0 to len
      invariant non <= n + k && non == |front| + |DataOf(cs[..k])|
      invariant ifld[..non] == front + DataOf(cs[..k])
      invariant miss == Classes(cs[..k])
      invariant forall x :: k <= x < len ==> ifld[n + x] == xs[x]
    {
      SnocCell(cs, k);
      assert cs[k] == CodeCell(xs[k], ref, w, missopt) by { WideCell(s, ref, w, len, missopt, nb, k); }
      if ifld[n + k] == msng1 {
        miss := miss + [1];
      } else if missopt == 2 && ifld[n + k] == msng2 {
        miss := miss + [2];
      } else {
        miss := miss + [0];
        ifld[non] := ifld[n + k] + ref;
        non := non + 1;
      }
    }
    assert cs[..len] == cs;
  }

  lemma {:induction false} WideCell(s: seq<bit>, ref: int, w: nat, n: nat, missopt: nat, nb: nat, k: nat)
    requires w > 0 && n * w <= |s| && k < n
    ensures GroupCells(s, ref, w, n, missopt, nb)[k] == CodeCell(DecAll(s, w, n)[k], ref, w, missopt)
  {
  }

  /** The same without missing points: the reference is added where the values stand. */
  method UnpackPlain(cpack: array<byte>, ifld: array<int>, n: nat, iofst: nat, w: nat, len: nat, ref: int,
                     ghost nb: nat)
    requires w > 0 && iofst + len * w <= 8 * cpack.Length && n + len <= ifld.Length
    modifies ifld
    ensures var cs := GroupCells(Bits(cpack[..])[iofst..], ref, w, len, 0, nb);
            ifld[..n + len] == old(ifld[..n]) + DataOf(cs) && Classes(cs) == seq(len, _ => 0)
  {
    hide DecAll, DataOf, Classes, Bits, GroupCells, Pow2;
    ghost var a := cpack[..];
    ghost var s := Bits(a)[iofst..];
    ghost var cs := GroupCells(s, ref, w, len, 0, nb);
    ghost var xs := DecAll(s, w, len);
    FetchInto(cpack, ifld, n, iofst, w, len);
    assert cpack[..] == a;
    for k := 0 to len
      invariant forall x :: 0 <= x < n ==> ifld[x] == old(ifld[x])
      invariant forall x :: 0 <= x < len ==> ifld[n + x] == xs[x] + if x < k then ref else 0
    {
      ifld[n + k] := ifld[n + k] + ref;
    }
    forall k | 0 <= k < len ensures cs[k] == Data(xs[k] + ref) { WideCell(s, ref, w, len, 0, nb, k); }
    DataOnly(cs);
  }

  /** A group of width 0: its reference, or a missing marker, repeated. */
  method UnpackFlat(ifld: array<int>, n: nat, non0: nat, len: nat, ref: int, missopt: nat, nb: nat)
    returns (non: nat, miss: seq<int>)
    requires non0 <= n && n + len <= ifld.Length
    modifies ifld
    ensures var cs := seq(len, _ => FlatCell(ref, nb, missopt));
            miss == Classes(cs) && non == non0 + |DataOf(cs)| <= n + len &&
              ifld[..non] == old(ifld[..non0]) + DataOf(cs)
    ensures missopt == 0 ==> non == non0 + len
  {
    hide DataOf;
    ghost var cs := seq(len, _ => FlatCell(ref, nb, missopt));
    var msng1 := Pow2(nb) - 1;
    var msng2 := msng1 - 1;
    non := non0;
    if missopt >= 1 && ref == msng1 {
      miss := seq(len, _ => 1);
      MissingOnly(cs);
    } else if missopt == 2 && ref == msng2 {
      miss := seq(len, _ => 2);
      MissingOnly(cs);
    } else {
      miss := seq(len, _ => 0);
      DataOnly(cs);
      for l := 0 to len
        invariant forall x :: 0 <= x < non0 ==> ifld[x] == old(ifld[x])
        invariant forall x :: non0 <= x < non0 + l ==> ifld[x] == ref
      {
        ifld[non0 + l] := ref;
      }
      non := non0 + len;
    }
  }

  lemma {:induction false} FlatCells(s: seq<bit>, ref: int, n: nat, missopt: nat, nb: nat)
    ensures n * 0 == 0 && GroupCells(s, ref, 0, n, missopt, nb) == seq(n, _ => FlatCell(ref, nb, missopt))
  {
  }

  method ReadGroup(cpack: array<byte>, ifld: array<int>, n: nat, non0: nat, iofst: nat, w: nat, len: nat, ref: int,
                   missopt: nat, nb: nat)
    returns (non: nat, miss: seq<int>)
    requires iofst + len * w <= 8 * cpack.Length && non0 <= n && n + len <= ifld.Length && missopt <= 2
    requires missopt == 0 ==> non0 == n
    modifies ifld
    ensures var cs := GroupCells(Bits(cpack[..])[iofst..], ref, w, len, missopt, nb);
            miss == Classes(cs) && non == non0 + |DataOf(cs)| <= n + len &&
              ifld[..non] == old(ifld[..non0]) + DataOf(cs)
    ensures missopt == 0 ==> non == n + len
  {
    hide DecAll, DataOf, Classes, Bits, GroupCells, Pow2;
    ghost var a := cpack[..];
    if w == 0 {
      FlatCells(Bits(a)[iofst..], ref, len, missopt, nb);
      non, miss := UnpackFlat(ifld, n, non0, len, ref, missopt, nb);
    } else if missopt == 0 {
      UnpackPlain(cpack, ifld, n, iofst, w, len, ref, nb);
      non, miss := n + len, seq(len, _ => 0);
    } else {
      non, miss := UnpackWide(cpack, ifld, n, non0, iofst, w, len, ref, missopt, nb);
    }
    assert cpack[..] == a;
  }

  // ----- all groups

  /** The cells found so far, followed by those of the groups from j on. */
  ghost function Rest(done: seq<Cell>, s: seq<bit>, refs: seq<nat>, widths: seq<nat>, lens: seq<nat>, j: nat,
                      missopt: nat, nb: nat): (r: Option<seq<Cell>>)
    requires j <= |refs| == |widths| == |lens|
  {
    var r := FetchGroups(s, refs[j..], widths[j..], lens[j..], missopt, nb);
    if r.None? then None else Some(done + r.value)
  }

  lemma {:induction false} RestStep(done: seq<Cell>, s: seq<bit>, iofst: nat, refs: seq<nat>, widths: seq<nat>,
                                    lens: seq<nat>, j: nat, missopt: nat, nb: nat)
    requires j < |refs| == |widths| == |lens| && iofst <= |s|
    ensures Sum(lens[j..]) == lens[j] + Sum(lens[j + 1..])
    ensures iofst + lens[j] * widths[j] > |s| ==> Rest(done, s[iofst..], refs, widths, lens, j, missopt, nb) == None
    ensures iofst + lens[j] * widths[j] <= |s| ==>
      Rest(done, s[iofst..], refs, widths, lens, j, missopt, nb)
      == Rest(done + GroupCells(s[iofst..], refs[j], widths[j], lens[j], missopt, nb),
              s[iofst + lens[j] * widths[j]..], refs, widths, lens, j + 1, missopt, nb)
  {
    hide GroupCells;
    assert refs[j..][1..] == refs[j + 1..] && widths[j..][1..] == widths[j + 1..] && lens[j..][1..] == lens[j + 1..];
    var m := lens[j] * widths[j];
    if iofst + m <= |s| {
      assert s[iofst..][m..] == s[iofst + m..];
      var cs := GroupCells(s[iofst..], refs[j], widths[j], lens[j], missopt, nb);
      var r := FetchGroups(s[iofst + m..], refs[j + 1..], widths[j + 1..], lens[j + 1..], missopt, nb);
      if r.Some? { assert (done + cs) + r.value == done + (cs + r.value); }
    }
  }

  lemma {:induction false} RestEnds(cs: seq<Cell>, s: seq<bit>, refs: seq<nat>, widths: seq<nat>, lens: seq<nat>,
                                    missopt: nat, nb: nat)
    requires |refs| == |widths| == |lens|
    ensures Rest(cs, s, refs, widths, lens, |lens|, missopt, nb) == Some(cs)
    ensures Rest([], s, refs, widths, lens, 0, missopt, nb) == FetchGroups(s, refs, widths, lens, missopt, nb)
    ensures Sum(lens[|lens|..]) == 0 && lens[0..] == lens
  {
    assert refs[0..] == refs && widths[0..] == widths && lens[0..] == lens;
    var r := FetchGroups(s, refs, widths, lens, missopt, nb);
    if r.Some? { assert [] + r.value == r.value; }
    assert cs + [] == cs;
  }

  method ReadGroups(cpack: array<byte>, ifld: array<int>, iofst0: nat, refs: seq<nat>, widths: seq<nat>, lens: seq<nat>,
                    missopt: nat, nb: nat)
    returns (ok: bool, non: nat, miss: seq<int>)
    requires |refs| == |widths| == |lens| && Sum(lens) == ifld.Length && missopt <= 2 && iofst0 <= 8 * cpack.Length
    modifies ifld
    ensures var r := FetchGroups(Bits(cpack[..])[iofst0..], refs, widths, lens, missopt, nb);
            ok == r.Some? && (ok ==> miss == Classes(r.value) && non <= ifld.Length && ifld[..non] == DataOf(r.value))
  {
    hide DataOf, Classes, Bits, GroupCells, Rest, FetchGroups, Sum;
    ghost var a := cpack[..];
    ghost var s := Bits(a);
    ghost var done: seq<Cell> := [];
    var iofst: nat, n: nat := iofst0, 0;
    ok, non, miss := true, 0, [];
    NoCells();
    RestEnds(done, s[iofst..], refs, widths, lens, missopt, nb);
    for j := 0 to |lens|
      invariant cpack[..] == a && iofst <= |s| && non <= n && n + Sum(lens[j..]) == ifld.Length
      invariant missopt == 0 ==> non == n
      invariant Rest(done, s[iofst..], refs, widths, lens, j, missopt, nb)
             == FetchGroups(s[iofst0..], refs, widths, lens, missopt, nb)
      invariant miss == Classes(done) && ifld[..non] == DataOf(done)
    {
      RestStep(done, s, iofst, refs, widths, lens, j, missopt, nb);
      MulLe(0, lens[j], widths[j]);
      var itemp: nat := lens[j] * widths[j];
      if iofst + itemp > 8 * cpack.Length {
        return false, non, miss;
      }
      ghost var cs := GroupCells(s[iofst..], refs[j], widths[j], lens[j], missopt, nb);
      var more;
      non, more := ReadGroup(cpack, ifld, n, non, iofst, widths[j], lens[j], refs[j], missopt, nb);
      MoreCells(done, cs);
      miss := miss + more;
      done := done + cs;
      iofst, n := iofst + itemp, n + lens[j];
    }
    RestEnds(done, s[iofst..], refs, widths, lens, missopt, nb);
  }

  // ----- the whole section

  method Totals(widths: seq<nat>, lens: seq<nat>) returns (totBit: nat, totLen: nat)
    requires |widths| == |lens|
    ensures totBit == TotalBits(widths, lens) && totLen == Sum(lens)
  {
    totBit, totLen := 0, 0;
    assert widths[0..] == widths && lens[0..] == lens;
    for j := 0 to |lens|
      invariant totLen + Sum(lens[j..]) == Sum(lens)
      invariant totBit + TotalBits(widths[j..], lens[j..]) == TotalBits(widths, lens)
    {
      TotalStep(widths, lens, j);
      totBit := totBit + lens[j] * widths[j];
      totLen := totLen + lens[j];
    }
  }

  lemma {:induction false} TotalStep(widths: seq<nat>, lens: seq<nat>, j: nat)
    requires j < |widths| == |lens|
    ensures 0 <= lens[j] * widths[j]
    ensures Sum(lens[j..]) == lens[j] + Sum(lens[j + 1..])
    ensures TotalBits(widths[j..], lens[j..]) == lens[j] * widths[j] + TotalBits(widths[j + 1..], lens[j + 1..])
  {
    MulLe(0, lens[j], widths[j]);
    assert widths[j..][1..] == widths[j + 1..] && lens[j..][1..] == lens[j + 1..];
  }

  /** Data and missing points, put back in grid order. */
  method Assemble(ifld: array<int>, non: nat, miss: seq<int>, ghost cs: seq<Cell>) returns (cells: seq<Cell>)
    requires miss == Classes(cs) && non == |DataOf(cs)| && non <= ifld.Length
    ensures cells == Refill(cs, ifld[..non])
  {
    hide DataOf, Classes, Refill;
    ghost var ds := ifld[..non];
    cells := [];
    var k: nat := 0;
    assert cs[0..] == cs && ds[0..] == ds;
    for n := 0 to |miss|
      invariant k <= non && |DataOf(cs[n..])| == |ds[k..]|
      invariant cells + Refill(cs[n..], ds[k..]) == Refill(cs, ds)
    {
      RefillStep(cs, ds, n, k);
      assert miss[n] == ClassOf(cs[n]) by { ClassAt(cs, n); }
      if miss[n] == 0 {
        Assoc1(cells, Data(ds[k]), Refill(cs[n + 1..], ds[k + 1..]));
        cells := cells + [Data(ifld[k])];
        k := k + 1;
      } else {
        Assoc1(cells, cs[n], Refill(cs[n + 1..], ds[k..]));
        cells := cells + [if miss[n] == 1 then Primary else Secondary];
      }
    }
    assert cs[|miss|..] == [];
    assert Refill([], []) == [] by { NoCells(); RefillSame([]); }
    NoCells();
    assert ds[k..] == [];
    assert cells + [] == cells;
  }

  lemma {:induction false} Assoc1(a: seq<Cell>, c: Cell, b: seq<Cell>)
    ensures a + ([c] + b) == (a + [c]) + b
  {
  }

  lemma {:induction false} RefillStep(cs: seq<Cell>, ds: seq<int>, n: nat, k: nat)
    requires n < |cs| && k <= |ds| && |ds[k..]| == |DataOf(cs[n..])|
    ensures cs[n].Data? ==> k < |ds| && |DataOf(cs[n + 1..])| == |ds[k + 1..]|
    ensures cs[n].Data? ==> Refill(cs[n..], ds[k..]) == [Data(ds[k])] + Refill(cs[n + 1..], ds[k + 1..])
    ensures !cs[n].Data? ==> |DataOf(cs[n + 1..])| == |ds[k..]|
    ensures !cs[n].Data? ==> Refill(cs[n..], ds[k..]) == [cs[n]] + Refill(cs[n + 1..], ds[k..])
  {
    assert cs[n..][1..] == cs[n + 1..];
    if cs[n].Data? { assert ds[k..][1..] == ds[k + 1..]; }
  }

  /** The second half: from the group descriptors to the field. */
  method UnpackGroups(t: Drt, cpack: array<byte>, iofst: nat, h: Header, refs: seq<nat>, widths: seq<nat>,
                      lens: seq<nat>, lensec: nat, ndpts: nat)
    returns (d: Decoded)
    requires (t.order <= 2 ==> t.order <= ndpts) && t.missopt <= 2
    requires |refs| == |widths| == |lens| && iofst <= 8 * cpack.Length
    ensures d == DecodeGroups(t, Bits(cpack[..])[iofst..], h, refs, widths, lens, lensec, ndpts)
  {
    hide Bits, FetchGroups, Sum, TotalBits, DataOf, Summed, Refill, Classes;
    ghost var a := cpack[..];
    var totBit, totLen := Totals(widths, lens);
    if totLen != ndpts || totBit > 8 * lensec { return Invalid; }
    var ifld := new int[ndpts](_ => 0);
    var ok, non, miss := ReadGroups(cpack, ifld, iofst, refs, widths, lens, t.missopt, t.nbitsgref);
    assert cpack[..] == a;
    if !ok { return Invalid; }
    ghost var cs := FetchGroups(Bits(a)[iofst..], refs, widths, lens, t.missopt, t.nbitsgref).value;
    if 1 <= t.order <= 2 {
      SumInPlace(ifld, non, t.order, h.ival1, h.ival2, h.minsd);
    }
    assert t.order <= 2 ==> ifld[..non] == Summed(DataOf(cs), t.order, h.ival1, h.ival2, h.minsd) by {
      if t.order == 0 { NoSum(DataOf(cs), h.ival1, h.ival2, h.minsd); }
    }
    var cells := Assemble(ifld, non, miss, cs);
    assert cpack[..] == a;
    d := Field(cells);
  }

  lemma {:induction false} NoSum(ds: seq<int>, ival1: int, ival2: int, minsd: int)
    ensures Summed(ds, 0, ival1, ival2, minsd) == ds
  {
  }

  /**
   * `comunpack` on a buffer of octets: every read stays inside the buffer, and the result is what
   * the format says, the error returns included.
   */
  method Comunpack(t: Drt, cpack: array<byte>, lensec: nat, ndpts: nat) returns (d: Decoded)
    requires (t.ngroups > 0 && t.order <= 2 ==> t.order <= ndpts) && t.missopt <= 2 && t.nbitsd % 8 == 0
    ensures d == Decode(t, Bits(cpack[..]), lensec, ndpts)
  {
    hide Bits, FetchRun, FetchHeader, DecodeGroups, PlusAll, RestoredLens;
    if t.ngroups == 0 { return Constant; }
    var ok, h, iofst := ReadHeader(cpack, t.order, t.nbitsd);
    if !ok { return Invalid; }
    var refs, widths, lens;
    ok, refs, iofst := ReadRun(cpack, iofst, t.nbitsgref, t.ngroups);
    if !ok { return Invalid; }
    ok, widths, iofst := ReadRun(cpack, iofst, t.nbitsgwidth, t.ngroups);
    if !ok { return Invalid; }
    ok, lens, iofst := ReadRun(cpack, iofst, t.nbitsglen, t.ngroups);
    if !ok { return Invalid; }
    d := UnpackGroups(t, cpack, iofst, h, refs, PlusAll(widths, t.ngwidthref), RestoredLens(lens, t), lensec, ndpts);
  }
}
