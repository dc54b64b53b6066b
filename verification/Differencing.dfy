/** Spatial differencing of order 1 or 2 and its inverse (Data Representation Template 5.3). */
module Differencing {
  import opened Extremes

  // ----- specification

  ghost function DiffAt(s: seq<int>, order: nat, i: nat): (d: int)
    requires 1 <= order <= 2 && i < |s|
  {
    if i < order then 0
    else if order == 1 then s[i] - s[i - 1]
    else s[i] - 2 * s[i - 1] + s[i - 2]
  }

  ghost function Diff(s: seq<int>, order: nat): (d: seq<int>)
    requires 1 <= order <= 2
    ensures |d| == |s|
  {
    seq(|s|, i requires 0 <= i < |s| => DiffAt(s, order, i))
  }

  /** The least difference; 0 when there is none. */
  ghost function MinDiff(s: seq<int>, order: nat): (m: int)
    requires 1 <= order <= 2
  {
    if |s| <= order then 0 else MinOf(Diff(s, order)[order..])
  }

  /** What is packed: differences with their minimum removed, after `order` zeros. */
  ghost function Residual(s: seq<int>, order: nat): (r: seq<int>)
    requires order <= 2
    ensures |r| == |s|
  {
    if order == 0 then s
    else seq(|s|, i requires 0 <= i < |s| => if i < order then 0 else DiffAt(s, order, i) - MinDiff(s, order))
  }

  function At(s: seq<int>, i: nat): (v: int)
  {
    if i < |s| then s[i] else 0
  }

  /** Summing up again from the first values and the overall minimum. */
  ghost function Summed(r: seq<int>, order: nat, ival1: int, ival2: int, minsd: int): (s: seq<int>)
    requires order <= 2
    ensures |s| == |r|
  {
    if order == 0 then r else
    if r == [] then [] else
      var k := |r| - 1;
      var p := Summed(r[..k], order, ival1, ival2, minsd);
      p + [NextSum(p, r[k], order, ival1, ival2, minsd)]
  }

  function NextSum(p: seq<int>, d: int, order: nat, ival1: int, ival2: int, minsd: int): (v: int)
    requires 1 <= order <= 2
  {
    var k := |p|;
    if k == 0 then ival1
    else if order == 1 then d + minsd + p[k - 1]
    else if k == 1 then ival2
    else d + minsd + 2 * p[k - 1] - p[k - 2]
  }

  lemma {:induction false} ResidualNonnegative(s: seq<int>, order: nat)
    requires order <= 2
    requires order == 0 ==> forall i :: 0 <= i < |s| ==> s[i] >= 0
    ensures forall i :: 0 <= i < |s| ==> Residual(s, order)[i] >= 0
    ensures 1 <= order < |s| ==> exists i :: order <= i < |s| && Residual(s, order)[i] == 0
  {
    if order > 0 {
      if order < |s| {
        var d := Diff(s, order)[order..];
        var k :| 0 <= k < |d| && d[k] == MinDiff(s, order);
        assert Residual(s, order)[k + order] == 0;
      }
      forall i | order <= i < |s| ensures DiffAt(s, order, i) >= MinDiff(s, order) {
        assert Diff(s, order)[order..][i - order] == DiffAt(s, order, i);
      }
    }
  }

  /** Summing undoes differencing, whatever the data, for every length. */
  lemma {:induction false} SummedResidual(s: seq<int>, order: nat)
    requires order <= 2
    ensures Summed(Residual(s, order), order, At(s, 0), At(s, 1), if order == 0 then 0 else MinDiff(s, order)) == s
  {
    if order > 0 {
      var r := Residual(s, order);
      SummedUnique(s, r, order, At(s, 0), At(s, 1), MinDiff(s, order), |s|);
      assert r[..|s|] == r && s[..|s|] == s;
    }
  }

  // ----- in place

  /** The encoder's loops over the n live values; the array is zero beyond them, as allocated. */
  method DifferenceInPlace(fld: array<int>, n: nat, order: nat) returns (ival1: int, ival2: int, minsd: int)
    requires 1 <= order <= 2 && n <= fld.Length && order < fld.Length
    requires forall i :: n <= i < fld.Length ==> fld[i] == 0
    modifies fld
    ensures fld[..n] == Residual(old(fld[..n]), order)
    ensures ival1 == At(old(fld[..n]), 0)
    ensures ival2 == if order == 2 then At(old(fld[..n]), 1) else 0
    ensures minsd == MinDiff(old(fld[..n]), order)
    ensures forall i :: n <= i < fld.Length ==> fld[i] == 0
  {
    hide Residual, MinDiff, DiffAt, Diff;
    ghost var s := fld[..n];
    ival1, ival2 := fld[0], 0;
    if order == 1 {
      DiffFirst(fld, n);
    } else {
      ival2 := fld[1];
      DiffSecond(fld, n);
    }
    ghost var d := fld[..n];
    minsd := LeastFrom(fld, order, n, d);
    assert minsd == MinDiff(s, order) by { MinDiffIs(s, order); }
    SubtractFrom(fld, order, n, minsd);
    ResidualFromDiff(s, order, fld[..n]);
  }

  lemma {:induction false} MinDiffIs(s: seq<int>, order: nat)
    requires 1 <= order <= 2
    ensures MinDiff(s, order) == if |s| <= order then 0 else MinOf(Diff(s, order)[order..])
  {
  }

  lemma {:induction false} ResidualFromDiff(s: seq<int>, order: nat, r: seq<int>)
    requires 1 <= order <= 2 && |r| == |s|
    requires forall i :: 0 <= i < |s| ==> r[i] == Diff(s, order)[i] - if order <= i then MinDiff(s, order) else 0
    ensures r == Residual(s, order)
  {
    hide MinDiff;
    forall i | 0 <= i < |s| ensures r[i] == Residual(s, order)[i] { }
  }

  method SubtractFrom(fld: array<int>, lo: nat, n: nat, d: int)
    requires n <= fld.Length
    modifies fld
    ensures forall i :: 0 <= i < fld.Length ==> fld[i] == old(fld[i]) - if lo <= i < n then d else 0
  {
    var j := lo;
    while j < n
      invariant lo <= j
      invariant forall i :: 0 <= i < fld.Length ==> fld[i] == old(fld[i]) - if lo <= i < n && i < j then d else 0
    {
      fld[j] := fld[j] - d;
      j := j + 1;
    }
  }

  method DiffFirst(fld: array<int>, n: nat)
    requires 1 <= fld.Length && n <= fld.Length
    requires forall i :: n <= i < fld.Length ==> fld[i] == 0
    modifies fld
    ensures fld[..n] == Diff(old(fld[..n]), 1)
    ensures forall i :: n <= i < fld.Length ==> fld[i] == 0
  {
    ghost var s := fld[..n];
    var j := n - 1;
    while j > 0
      invariant -1 <= j < n && (n > 0 ==> j >= 0)
      invariant forall i :: 0 <= i <= j ==> fld[i] == s[i]
      invariant forall i :: j < i < n ==> fld[i] == DiffAt(s, 1, i)
      invariant forall i :: n <= i < fld.Length ==> fld[i] == 0
    {
      fld[j] := fld[j] - fld[j - 1];
      j := j - 1;
    }
    fld[0] := 0;
  }

  method DiffSecond(fld: array<int>, n: nat)
    requires 2 <= fld.Length && n <= fld.Length
    requires forall i :: n <= i < fld.Length ==> fld[i] == 0
    modifies fld
    ensures fld[..n] == Diff(old(fld[..n]), 2)
    ensures forall i :: n <= i < fld.Length ==> fld[i] == 0
  {
    ghost var s := fld[..n];
    var j := n - 1;
    while j > 1
      invariant -1 <= j < n && (n > 1 ==> j >= 1)
      invariant forall i :: 0 <= i <= j ==> fld[i] == s[i]
      invariant forall i :: j < i < n ==> fld[i] == DiffAt(s, 2, i)
      invariant forall i :: n <= i < fld.Length ==> fld[i] == 0
    {
      fld[j] := fld[j] - 2 * fld[j - 1] + fld[j - 2];
      j := j - 1;
    }
    fld[0] := 0;
    fld[1] := 0;
  }

  /** The least of fld[order..n], or fld[order] when that stretch is empty. */
  method LeastFrom(fld: array<int>, order: nat, n: nat, ghost d: seq<int>) returns (minsd: int)
    requires 1 <= order && order < fld.Length && n <= fld.Length && fld[..n] == d
    requires forall i :: n <= i < fld.Length ==> fld[i] == 0
    ensures minsd == if n <= order then 0 else MinOf(d[order..])
  {
    minsd := fld[order];
    var j := order;
    while j < n
      invariant order <= j
      invariant forall i :: order <= i < j && i < n ==> minsd <= fld[i]
      invariant n > order ==> exists i :: order <= i < n && minsd == fld[i]
      invariant n <= order ==> minsd == 0
    {
      if fld[j] < minsd { minsd := fld[j]; }
      j := j + 1;
    }
    if n > order {
      var i :| order <= i < n && minsd == fld[i];
      assert d[order..][i - order] == minsd;
      MinIs(d[order..], minsd);
    }
  }

  /** The decoder's recurrence at i. */
  ghost predicate SumsAt(s: seq<int>, r: seq<int>, order: nat, ival1: int, ival2: int, minsd: int, i: nat)
    requires 1 <= order <= 2 && i < |s| == |r|
  {
    s[i] == if i == 0 then ival1
            else if order == 1 then r[i] + minsd + s[i - 1]
            else if i == 1 then ival2
            else r[i] + minsd + 2 * s[i - 1] - s[i - 2]
  }

  lemma {:induction false} SummedUnique(s: seq<int>, r: seq<int>, order: nat,
                                        ival1: int, ival2: int, minsd: int, k: nat)
    requires 1 <= order <= 2 && |s| == |r| && k <= |s|
    requires forall i :: 0 <= i < k ==> SumsAt(s, r, order, ival1, ival2, minsd, i)
    ensures Summed(r[..k], order, ival1, ival2, minsd) == s[..k]
  {
    if k > 0 {
      SummedUnique(s, r, order, ival1, ival2, minsd, k - 1);
      assert r[..k][..k - 1] == r[..k - 1];
      assert SumsAt(s, r, order, ival1, ival2, minsd, k - 1);
      assert s[..k] == s[..k - 1] + [s[k - 1]];
    }
  }

  /** The decoder's loops: the first n values are summed up where they stand. */
  method SumInPlace(fld: array<int>, n: nat, order: nat, ival1: int, ival2: int, minsd: int)
    requires 1 <= order <= 2 && order <= fld.Length && n <= fld.Length
    modifies fld
    ensures fld[..n] == Summed(old(fld[..n]), order, ival1, ival2, minsd)
  {
    hide Summed;
    ghost var r := fld[..n];
    fld[0] := ival1;
    if order == 2 { fld[1] := ival2; }
    var k := order;
    while k < n
      invariant order <= k
      invariant forall i :: 0 <= i < k && i < n ==> SumsAt(fld[..n], r, order, ival1, ival2, minsd, i)
      invariant forall i :: k <= i < n ==> fld[i] == r[i]
    {
      ghost var t := fld[..n];
      fld[k] := fld[k] + minsd;
      fld[k] := if order == 1 then fld[k] + fld[k - 1] else fld[k] + 2 * fld[k - 1] - fld[k - 2];
      forall i | 0 <= i <= k && i < n ensures SumsAt(fld[..n], r, order, ival1, ival2, minsd, i) {
        if i < k { assert SumsAt(t, r, order, ival1, ival2, minsd, i); }
      }
      k := k + 1;
    }
    SummedUnique(fld[..n], r, order, ival1, ival2, minsd, n);
    assert r[..n] == r && fld[..n][..n] == fld[..n];
  }
}
