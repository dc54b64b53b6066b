/** Least and greatest element of a sequence, and the sum of one of lengths. */
module Extremes {

  function MinOf(s: seq<int>): (m: int)
    requires s != []
    ensures m in s
    ensures forall i :: 0 <= i < |s| ==> m <= s[i]
  {
    var n := |s| - 1;
    if n == 0 then s[0]
    else
      var r := MinOf(s[..n]);
      assert forall i :: 0 <= i < n ==> s[..n][i] == s[i];
      if s[n] < r then s[n] else r
  }

  function MaxOf(s: seq<int>): (m: int)
    requires s != []
    ensures m in s
    ensures forall i :: 0 <= i < |s| ==> s[i] <= m
  {
    var n := |s| - 1;
    if n == 0 then s[0]
    else
      var r := MaxOf(s[..n]);
      assert forall i :: 0 <= i < n ==> s[..n][i] == s[i];
      if s[n] > r then s[n] else r
  }

  /** The bounds and membership determine the value. */
  lemma {:induction false} MinIs(s: seq<int>, m: int)
    requires m in s && forall i :: 0 <= i < |s| ==> m <= s[i]
    ensures MinOf(s) == m
  {
  }

  lemma {:induction false} MaxIs(s: seq<int>, m: int)
    requires m in s && forall i :: 0 <= i < |s| ==> s[i] <= m
    ensures MaxOf(s) == m
  {
  }

  function Sum(lens: seq<nat>): (n: nat)
  {
    if lens == [] then 0 else lens[0] + Sum(lens[1..])
  }

  lemma {:induction false} SumSnoc(lens: seq<nat>, l: nat)
    requires l < |lens|
    ensures Sum(lens[..l + 1]) == Sum(lens[..l]) + lens[l]
  {
    if l == 0 {
      assert lens[..1][1..] == [];
    } else {
      SumSnoc(lens[1..], l - 1);
      assert lens[..l + 1][1..] == lens[1..][..l] && lens[..l][1..] == lens[1..][..l - 1];
    }
  }
}
