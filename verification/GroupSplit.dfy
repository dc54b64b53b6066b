/**
 * `g2_pack_gp`: splitting a field into groups of varying size.  Group A is being built, group B is
 * the stretch ahead of it; points move from A back to B, or from B's front to A.
 * Stretches are half-open index ranges; a remembered position is one more than the index, as in
 * the original, so that it can be compared with a count of points.
 */
module GroupSplit {
  import opened Shifts

  /** 2^30, and the value just above it that stands for "none found". */
  const LIMIT := 1073741824
  const MALLOW := 1073741825

  datatype Problem = Problem(ic: seq<int>, is523: int, missp: int, misss: int) {

    predicate Miss(i: nat)
      requires i < |ic|
    {
      (is523 == 1 && ic[i] == missp) || (is523 == 2 && (ic[i] == missp || ic[i] == misss))
    }

    function Lmiss(): (n: nat)
    {
      if is523 == 1 then 1 else if is523 == 2 then 2 else 0
    }

    predicate Valid()
    {
      0 <= is523 <= 2 && |ic| < LIMIT && (is523 == 1 ==> missp != MALLOW) &&
      forall i :: 0 <= i < |ic| ==> -LIMIT <= ic[i] < LIMIT
    }
  }

  /** Extremes of a stretch and where they occur; MALLOW marks that none was found. */
  datatype Stats = Stats(lo: int, hi: int, loAt: int, hiAt: int)

  const NONE := Stats(MALLOW, -MALLOW, MALLOW, -MALLOW)

  /** A candidate group: its extremes (0, 0 when all points are missing) and its width. */
  datatype Cand = Cand(s: Stats, width: nat, allMiss: bool)

  // ----- what the statistics mean

  ghost predicate Within(p: Problem, i: nat, j: nat, s: Stats)
    requires j <= |p.ic|
  {
    forall k :: i <= k < j && !p.Miss(k) ==> s.lo <= p.ic[k] <= s.hi
  }

  ghost predicate AllMissing(p: Problem, i: nat, j: nat)
    requires j <= |p.ic|
  {
    forall k :: i <= k < j ==> p.Miss(k)
  }

  /** Both extremes occur in the stretch. */
  ghost predicate Attained(p: Problem, i: nat, j: nat, s: Stats)
    requires j <= |p.ic|
  {
    && (exists x :: i <= x < j && !p.Miss(x) && p.ic[x] == s.lo)
    && (exists y :: i <= y < j && !p.Miss(y) && p.ic[y] == s.hi)
  }

  /** The extremes occur where the positions say. */
  ghost predicate Located(p: Problem, i: nat, j: nat, s: Stats)
    requires j <= |p.ic|
  {
    && i < s.loAt <= j && !p.Miss(s.loAt - 1) && p.ic[s.loAt - 1] == s.lo
    && i < s.hiAt <= j && !p.Miss(s.hiAt - 1) && p.ic[s.hiAt - 1] == s.hi
  }

  lemma {:induction false} LocatedAttained(p: Problem, i: nat, j: nat, s: Stats)
    requires j <= |p.ic| && Located(p, i, j, s)
    ensures Attained(p, i, j, s)
  {
    var x, y := s.loAt - 1, s.hiAt - 1;
    assert i <= x < j && !p.Miss(x) && p.ic[x] == s.lo;
    assert i <= y < j && !p.Miss(y) && p.ic[y] == s.hi;
  }

  /** The range, with room for the missing markers, fits the width. */
  predicate Roomy(p: Problem, c: Cand)
  {
    && c.width <= 30
    && (c.s.hi - c.s.lo + p.Lmiss() < Pow2(c.width) || (c.allMiss && p.is523 == 1 && c.width == 0))
  }

  ghost predicate CandOk(p: Problem, i: nat, j: nat, c: Cand)
    requires j <= |p.ic|
  {
    && Roomy(p, c) && c.s.lo <= c.s.hi && c.s.lo < LIMIT
    && (if c.allMiss then AllMissing(p, i, j) && (p.is523 != 2 ==> c.width == 0) else Within(p, i, j, c.s))
  }

  /** No smaller width would hold the range. */
  predicate Least(p: Problem, s: Stats, w: nat)
  {
    w > 0 ==> s.hi - s.lo + p.Lmiss() >= Pow2(w - 1)
  }

  /**
   * The width is the least for the points of the stretch.  When secondary missing points may
   * occur every group needs two bits, and that is all that is known of a group of two bits.
   */
  ghost predicate Sharp(p: Problem, i: nat, j: nat, c: Cand)
    requires j <= |p.ic|
  {
    || (p.is523 == 2 && c.width <= 2)
    || (c.allMiss && c.width == 0)
    || (!c.allMiss && Attained(p, i, j, c.s) && Least(p, c.s, c.width))
  }

  // ----- scanning

  /** s holds the extremes of [i, j), or NONE when every point there is missing. */
  ghost predicate Seen(p: Problem, i: nat, j: nat, s: Stats)
    requires j <= |p.ic|
  {
    || (s == NONE && AllMissing(p, i, j))
    || (s.lo < MALLOW && Located(p, i, j, s) && Within(p, i, j, s))
  }

  lemma {:induction false} SeenMore(p: Problem, i: nat, j: nat, s: Stats, s': Stats)
    requires p.Valid() && i <= j < |p.ic| && Seen(p, i, j, s)
    requires p.Miss(j) ==> s' == s
    requires !p.Miss(j) ==>
      (s'.lo == p.ic[j] <= s.lo && s'.loAt == j + 1) || (s'.lo == s.lo <= p.ic[j] && s'.loAt == s.loAt)
    requires !p.Miss(j) ==>
      (s'.hi == p.ic[j] >= s.hi && s'.hiAt == j + 1) || (s'.hi == s.hi >= p.ic[j] && s'.hiAt == s.hiAt)
    ensures Seen(p, i, j + 1, s')
  {
    if !p.Miss(j) {
      assert Within(p, i, j, s);
    }
  }

  /** The first group's scan: strict comparisons, so the first occurrence is remembered. */
  method ScanStrict(p: Problem, i: nat, j: nat) returns (s: Stats)
    requires p.Valid() && i <= j <= |p.ic|
    ensures Seen(p, i, j, s)
  {
    s := NONE;
    for k := i to j
      invariant Seen(p, i, k, s)
    {
      ghost var t := s;
      if !p.Miss(k) {
        var c := p.ic[k];
        if c < s.lo { s := s.(lo := c, loAt := k + 1); }
        if c > s.hi { s := s.(hi := c, hiAt := k + 1); }
      }
      hide Seen;
      SeenMore(p, i, k, t, s);
    }
  }

  lemma {:induction false} SeenAgain(p: Problem, i: nat, j: nat, k: nat, s: Stats, s': Stats)
    requires p.Valid() && i <= k < j <= |p.ic| && Seen(p, i, j, s)
    requires p.Miss(k) ==> s' == s
    requires !p.Miss(k) ==> (s'.lo == p.ic[k] <= s.lo && s'.loAt == k + 1) || (s'.lo == s.lo && s'.loAt == s.loAt)
    requires !p.Miss(k) ==> (s'.hi == p.ic[k] >= s.hi && s'.hiAt == k + 1) || (s'.hi == s.hi && s'.hiAt == s.hiAt)
    ensures Seen(p, i, j, s') && s'.lo == s.lo && s'.hi == s.hi
  {
  }

  function Max(x: nat, y: nat): (m: nat)
  {
    if x < y then y else x
  }

  /** Extremes that some points of the field have, or none. */
  ghost predicate Sane(p: Problem, s: Stats)
  {
    s == NONE || (s.lo <= s.hi && s.lo < MALLOW && Attained(p, 0, |p.ic|, s))
  }

  /**
   * The scans of B: s0 extended over [i, j), the last occurrence remembered.  When s0 holds the
   * extremes of [a, c), the result holds those of [a, max(c, j)).
   */
  method ScanOn(p: Problem, s0: Stats, i: nat, j: nat, ghost tight: bool, ghost a: nat, ghost c: nat) returns (s: Stats)
    requires p.Valid() && j <= |p.ic| && Sane(p, s0)
    requires tight ==> a <= i <= c <= |p.ic| && Seen(p, a, c, s0)
    ensures Sane(p, s) && s.lo <= s0.lo && s.hi >= s0.hi
    ensures if s == NONE then s0 == NONE && AllMissing(p, i, j) else Within(p, i, j, s)
    ensures tight ==> Seen(p, a, Max(c, j), s)
  {
    s := s0;
    hide Seen, Attained;
    var k := i;
    while k < j
      invariant i <= k && (k <= j || k == i)
      invariant Sane(p, s) && s.lo <= s0.lo && s.hi >= s0.hi
      invariant if s == NONE then s0 == NONE && AllMissing(p, i, Min(j, k)) else Within(p, i, Min(j, k), s)
      invariant tight ==> k <= |p.ic| && Seen(p, a, Max(c, k), s)
    {
      ghost var t := s;
      if !p.Miss(k) {
        var v := p.ic[k];
        if v <= s.lo { s := s.(lo := v, loAt := k + 1); }
        if v >= s.hi { s := s.(hi := v, hiAt := k + 1); }
      }
      SaneMore(p, k, t, s);
      if tight {
        if k < c { SeenAgain(p, a, c, k, t, s); } else { SeenMore(p, a, k, t, s); }
      }
      k := k + 1;
    }
  }

  function Min(x: nat, y: nat): (m: nat)
  {
    if x < y then x else y
  }

  lemma {:induction false} SaneMore(p: Problem, k: nat, s: Stats, s': Stats)
    requires p.Valid() && k < |p.ic| && Sane(p, s)
    requires p.Miss(k) ==> s' == s
    requires !p.Miss(k) ==> (s'.lo == p.ic[k] <= s.lo) || (s'.lo == s.lo <= p.ic[k])
    requires !p.Miss(k) ==> (s'.hi == p.ic[k] >= s.hi) || (s'.hi == s.hi >= p.ic[k])
    ensures Sane(p, s') && (!p.Miss(k) ==> s' != NONE)
  {
    if !p.Miss(k) {
      assert 0 <= k < |p.ic| && !p.Miss(k) && p.ic[k] == p.ic[k];
    }
  }

  /** The search for a width from `start` up; 31 when the range does not fit 30 bits. */
  method WidthFrom(start: nat, d: int) returns (w: nat)
    requires start <= 30
    ensures start <= w <= 31
    ensures w <= 30 ==> d < Pow2(w)
    ensures w > start ==> d >= Pow2(w - 1)
  {
    w := start;
    while w <= 30
      invariant start <= w <= 31
      invariant w > start ==> d >= Pow2(w - 1)
    {
      if d < Pow2(w) { return; }
      w := w + 1;
    }
  }

  // ----- the stretch ahead

  /** Nothing is left from e on, or more than half a smallest group. */
  ghost predicate Leaves(p: Problem, lminpk: nat, e: nat)
  {
    e == |p.ic| || |p.ic| - e > lminpk / 2
  }

  /** End of a group of lminpk points from t on, or of all the rest when little would remain. */
  function NextEnd(p: Problem, lminpk: nat, t: nat): (e: nat)
    requires 1 <= lminpk && t < |p.ic|
    ensures t < e <= |p.ic|
    ensures if |p.ic| - t <= lminpk + lminpk / 2 then e == |p.ic| else e == t + lminpk
    ensures Leaves(p, lminpk, e)
  {
    Extended(p, lminpk, if t + lminpk < |p.ic| then t + lminpk else |p.ic|)
  }

  function Extended(p: Problem, lminpk: nat, e: nat): (r: nat)
    requires e <= |p.ic|
    ensures e <= r <= |p.ic| && Leaves(p, lminpk, r)
  {
    if |p.ic| - e <= lminpk / 2 then |p.ic| else e
  }

  /** All of [i, j) holds one value. */
  ghost predicate Constant(p: Problem, i: nat, j: nat)
    requires j <= |p.ic|
  {
    forall k :: i <= k < j ==> p.ic[k] == p.ic[i]
  }

  /** End of the run of equal values from i on. */
  method RunEnd(p: Problem, i: nat) returns (j: nat)
    requires i < |p.ic|
    ensures i < j <= |p.ic| && Constant(p, i, j) && (j < |p.ic| ==> p.ic[j] != p.ic[i])
  {
    j := i + 1;
    while j < |p.ic|
      invariant i < j <= |p.ic| && Constant(p, i, j)
    {
      if p.ic[j] != p.ic[i] { return; }
      j := j + 1;
    }
  }

  /**
   * B's statistics are those of [t, cover), which may reach past B's own end when the end was
   * drawn back; that happens only along a run of equal values that ends at re.
   */
  ghost predicate RunAhead(p: Problem, lminpk: nat, t: nat, cover: nat, re: nat)
    requires 1 <= lminpk && t < |p.ic| && cover <= |p.ic|
  {
    || NextEnd(p, lminpk, t) >= cover
    || (t < re <= cover && Constant(p, t, re) && (cover == re || (cover == |p.ic| && |p.ic| - re <= lminpk / 2)))
  }

  /** B as the loop knows it: extremes with positions, or none. */
  ghost predicate Known(p: Problem, i: nat, j: nat, c: Cand)
    requires j <= |p.ic|
  {
    && CandOk(p, i, j, c)
    && (c.allMiss ==> c.s == Stats(0, 0, MALLOW, -MALLOW) && p.is523 != 0 && c.width <= 2)
    && (!c.allMiss ==> Located(p, i, j, c.s) && Least(p, c.s, c.width))
    && (p.is523 == 2 ==> c.width >= 2)
  }

  /** From the scanned extremes to a candidate for [i, j), known when they are those of [i, cover). */
  method Candidate(p: Problem, s: Stats, ibits: nat, ghost i: nat, ghost j: nat, ghost tight: bool, ghost cover: nat)
    returns (ok: bool, c: Cand)
    requires p.Valid() && ibits <= 30 && i < j <= |p.ic| && Sane(p, s)
    requires if s == NONE then ibits == 0 && AllMissing(p, i, j) else Within(p, i, j, s)
    requires tight ==> i < cover <= |p.ic| && Seen(p, i, cover, s) && Least(p, s, ibits)
    ensures ok ==> CandOk(p, i, j, c) && c.width >= ibits && c.allMiss == (s == NONE)
    ensures ok ==> if s == NONE then c.s.hiAt == -MALLOW else c.s == s
    ensures ok && p.is523 == 2 ==> c.width >= 2
    ensures ok && tight ==> Known(p, i, cover, c)
    ensures Narrow(p) ==> ok
  {
    hide Pow2, Attained, Located;
    if s.lo != MALLOW {
      var w := WidthFrom(ibits, s.hi - s.lo + p.Lmiss());
      ok, c := w <= 30, Cand(s, w, false);
      TwoBits(w);
      SaneLow(p, s);
      if Narrow(p) { NarrowSane(p, s); }
    } else {
      assert p.Miss(i);
      var w := 0;
      if p.is523 == 2 { w := TwoBitWidth(); }
      ok, c := true, Cand(Stats(0, 0, s.loAt, s.hiAt), w, true);
    }
  }

  lemma {:induction false} TwoBits(w: nat)
    ensures 2 < Pow2(w) ==> w >= 2
  {
  }

  method TwoBitWidth() returns (w: nat)
    ensures w == 2 && 2 < Pow2(w)
  {
    w := WidthFrom(0, 2);
    Pow2Small();
    if w > 2 { Pow2Monotone(2, w - 1); }
  }

  /** No two values differ by so much that 30 bits cannot hold the difference. */
  ghost predicate Narrow(p: Problem)
  {
    forall i, j :: 0 <= i < |p.ic| && 0 <= j < |p.ic| && !p.Miss(i) && !p.Miss(j)
      ==> p.ic[i] - p.ic[j] + p.Lmiss() < Pow2(30)
  }

  lemma {:induction false} SaneLow(p: Problem, s: Stats)
    requires p.Valid() && Sane(p, s) && s != NONE
    ensures s.lo < LIMIT
  {
  }

  lemma {:induction false} NarrowSane(p: Problem, s: Stats)
    requires Sane(p, s) && s != NONE && Narrow(p)
    ensures s.hi - s.lo + p.Lmiss() < Pow2(30)
  {
    hide Pow2;
  }

  /**
   * Group B from point t on.  Anew, or when A has taken points off B's front and B's extremes
   * b0 survive, only from where B used to end.
   */
  method Lookahead(p: Problem, lminpk: nat, t: nat, anew: bool, b0: Cand, nendb0: nat, ghost tight: bool,
                   ghost cover0: nat)
    returns (ok: bool, b: Cand, nendb: nat, ghost cover: nat, ghost re: nat)
    requires p.Valid() && 1 <= lminpk && t < |p.ic|
    requires !anew ==> nendb0 <= |p.ic| && CandOk(p, t, nendb0, b0) && !b0.allMiss && Sane(p, b0.s)
    requires !anew && tight ==> t <= nendb0 <= cover0 <= |p.ic| && t < cover0 && Known(p, t, cover0, b0)
    ensures ok ==> NextEnd(p, lminpk, t) <= nendb <= |p.ic| && CandOk(p, t, nendb, b)
    ensures ok && p.is523 == 2 ==> b.width >= 2
    ensures ok ==> Leaves(p, lminpk, nendb)
    ensures ok ==> if b.allMiss then b.s.hiAt == -MALLOW else Sane(p, b.s)
    ensures ok && !anew ==> nendb == NextEnd(p, lminpk, t) && b.width >= b0.width
    ensures ok && anew && p.is523 == 0 && nendb < |p.ic| ==> !Constant(p, t, nendb + 1)
    ensures ok && tight ==> nendb <= cover <= |p.ic| && Known(p, t, cover, b)
    ensures ok && tight ==>
      if anew then cover == nendb && RunAhead(p, lminpk, t, cover, re) else cover == Max(cover0, nendb)
    ensures Narrow(p) ==> ok
  {
    hide Known, Seen, Least, Sane, Pow2;
    re := t;
    nendb := 1;
    if anew && p.is523 == 0 && t + 1 < |p.ic| {
      nendb := RunEnd(p, t);
      re := nendb;
    }
    var e := if t + lminpk < |p.ic| then t + lminpk else |p.ic|;
    nendb := Extended(p, lminpk, Max(nendb, e));
    if anew {
      SeenNothing(p, t);
      var s := ScanOn(p, NONE, t, nendb, true, t, t);
      cover := nendb;
      ok, b := Candidate(p, s, 0, t, nendb, true, cover);
    } else {
      if tight { KnownSeen(p, t, cover0, b0); }
      RealSane(p, b0.s);
      var s := ScanOn(p, b0.s, nendb0, nendb, tight, t, cover0);
      cover := Max(cover0, nendb);
      if tight { LeastGrows(p, b0.s, s, b0.width); }
      WithinJoined(p, t, nendb0, nendb, b0.s, s);
      ok, b := Candidate(p, s, b0.width, t, nendb, tight, cover);
    }
  }

  lemma {:induction false} SeenNothing(p: Problem, t: nat)
    requires t <= |p.ic|
    ensures Seen(p, t, t, NONE) && Sane(p, NONE) && forall s :: Least(p, s, 0)
  {
  }

  lemma {:induction false} RealSane(p: Problem, s: Stats)
    requires s.lo <= s.hi
    ensures s != NONE
  {
  }

  lemma {:induction false} WithinJoined(p: Problem, t: nat, i: nat, j: nat, s: Stats, s': Stats)
    requires i <= |p.ic| && j <= |p.ic| && Within(p, t, i, s) && Within(p, i, j, s') && s'.lo <= s.lo && s'.hi >= s.hi
    ensures Within(p, t, j, s')
  {
  }

  lemma {:induction false} LeastGrows(p: Problem, s: Stats, s': Stats, w: nat)
    requires Least(p, s, w) && s'.lo <= s.lo && s'.hi >= s.hi
    ensures Least(p, s', w)
  {
  }

  lemma {:induction false} KnownSeen(p: Problem, i: nat, j: nat, c: Cand)
    requires p.Valid() && j <= |p.ic| && Known(p, i, j, c) && !c.allMiss
    ensures Seen(p, i, j, c.s) && Least(p, c.s, c.width)
  {
  }

  // ----- moving points back from A to B

  /** A candidate known to be sharp: known in full, or of the two bits that every group then needs. */
  ghost predicate Kept(p: Problem, i: nat, j: nat, c: Cand)
    requires j <= |p.ic|
  {
    CandOk(p, i, j, c) && (p.is523 == 2 ==> c.width >= 2) && ((p.is523 == 2 && c.width <= 2) || Known(p, i, j, c))
  }

  lemma {:induction false} KeptSharp(p: Problem, i: nat, j: nat, c: Cand)
    requires j <= |p.ic| && Kept(p, i, j, c)
    ensures Sharp(p, i, j, c)
  {
    if !(p.is523 == 2 && c.width <= 2) && !c.allMiss { LocatedAttained(p, i, j, c.s); }
  }

  /** s widened, if need be, to take in the point before the stretch. */
  function Widened(p: Problem, s: Stats, i: nat): (r: Stats)
    requires 0 < i <= |p.ic|
  {
    var v := p.ic[i - 1];
    if v < s.lo then s.(lo := v, loAt := i) else if v > s.hi then s.(hi := v, hiAt := i) else s
  }

  /** The point before index i holds data that B's width has no room for. */
  ghost predicate Stuck(p: Problem, i: nat, b: Cand)
    requires 0 < i <= |p.ic|
  {
    !p.Miss(i - 1) && Widened(p, b.s, i).hi - Widened(p, b.s, i).lo + p.Lmiss() >= Pow2(b.width)
  }

  lemma {:induction false} BackMissing(p: Problem, i: nat, j: nat, b: Cand)
    requires 0 < i <= j <= |p.ic| && p.Miss(i - 1)
    ensures CandOk(p, i, j, b) ==> CandOk(p, i - 1, j, b)
    ensures Kept(p, i, j, b) ==> Kept(p, i - 1, j, b)
  {
    hide Pow2;
  }

  lemma {:induction false} BackData(p: Problem, i: nat, j: nat, b: Cand)
    requires p.Valid() && 0 < i <= j <= |p.ic| && !p.Miss(i - 1) && CandOk(p, i, j, b)
    requires Widened(p, b.s, i).hi - Widened(p, b.s, i).lo < Pow2(b.width) - p.Lmiss()
    ensures CandOk(p, i - 1, j, Cand(Widened(p, b.s, i), b.width, false))
    ensures Kept(p, i, j, b) ==> Kept(p, i - 1, j, Cand(Widened(p, b.s, i), b.width, false))
  {
    hide Pow2;
    var c := Cand(Widened(p, b.s, i), b.width, false);
    if b.allMiss && p.is523 == 1 { Pow2Small(); }
    assert Within(p, i - 1, j, c.s) by {
      if !b.allMiss { assert Within(p, i, j, b.s); }
    }
  }

  /**
   * B needs fewer bits than A: as many of A's last points as fit B's width move into B.
   * A is [start, t) and B is [t, nendb).
   */
  method Lookback(p: Problem, start: nat, t: nat, b0: Cand, ghost nendb: nat) returns (kept: nat, b: Cand)
    requires p.Valid() && start < t < nendb <= |p.ic| && CandOk(p, t, nendb, b0)
    ensures kept <= t - start && b.width == b0.width && CandOk(p, start + kept, nendb, b)
    ensures kept == t - start ==> b == b0
    ensures kept > 0 ==> Stuck(p, start + kept, b)
    ensures Kept(p, t, nendb, b0) ==> Kept(p, start + kept, nendb, b)
  {
    hide Kept, CandOk, Widened, Pow2;
    b := b0;
    var k := t;
    while k > start
      invariant start <= k <= t && b.width == b0.width && CandOk(p, k, nendb, b)
      invariant k == t ==> b == b0
      invariant Kept(p, t, nendb, b0) ==> Kept(p, k, nendb, b)
    {
      if !p.Miss(k - 1) {
        var tst := Widened(p, b.s, k);
        if tst.hi - tst.lo >= Pow2(b.width) - p.Lmiss() {
          break;
        }
        BackData(p, k, nendb, b);
        b := Cand(tst, b.width, false);
      } else {
        BackMissing(p, k, nendb, b);
      }
      k := k - 1;
    }
    kept := k - start;
  }

  lemma {:induction false} Pow2Less(m: nat, n: nat)
    requires Pow2(m) < Pow2(n)
    ensures m < n
  {
    if m >= n { Pow2Monotone(n, m); }
  }

  /** A group that takes in all of A is no narrower than A, whose width was the least. */
  lemma {:induction false} NoNarrower(p: Problem, start: nat, t: nat, a: Cand, b: Cand, nendb: nat)
    requires start < t <= nendb <= |p.ic|
    requires Sharp(p, start, t, a) && CandOk(p, start, nendb, b)
    requires p.is523 == 2 ==> b.width >= 2
    ensures a.width <= b.width
  {
    if a.width > 0 && !(p.is523 == 2 && a.width <= 2) {
      var x :| start <= x < t && !p.Miss(x) && p.ic[x] == a.s.lo;
      var y :| start <= y < t && !p.Miss(y) && p.ic[y] == a.s.hi;
      assert !b.allMiss && Within(p, start, nendb, b.s);
      assert Pow2(a.width - 1) <= a.s.hi - a.s.lo + p.Lmiss() < Pow2(b.width);
      Pow2Less(a.width - 1, b.width);
    }
  }

  /** What is left of A after the move, [start, end): its extremes are sought again if they may be gone. */
  method Recut(p: Problem, start: nat, end: nat, a0: Cand, ghost nenda: nat) returns (ok: bool, a: Cand)
    requires p.Valid() && start <= end < nenda <= |p.ic| && CandOk(p, start, nenda, a0)
    ensures ok ==> CandOk(p, start, end, a)
    ensures ok && start < end && Kept(p, start, nenda, a0) && (p.is523 == 2 ==> a0.width > 2) ==>
      Sharp(p, start, end, a)
    ensures Narrow(p) ==> ok
  {
    if end > a0.s.loAt && end > a0.s.hiAt {
      ok, a := true, a0;
      if Kept(p, start, nenda, a0) && (p.is523 == 2 ==> a0.width > 2) {
        LocatedAttained(p, start, end, a.s);
      }
      return;
    }
    hide Pow2, Attained;
    var s := ScanStrict(p, start, end);
    SeenSane(p, start, end, s);
    if start == end {
      ok, a := Leftover(p, s);
    } else {
      ok, a := Candidate(p, s, 0, start, end, true, end);
      if ok { KeptSharp(p, start, end, a); }
    }
  }

  lemma {:induction false} SeenSane(p: Problem, i: nat, j: nat, s: Stats)
    requires j <= |p.ic| && Seen(p, i, j, s)
    ensures Sane(p, s) && Least(p, s, 0) && (if s == NONE then AllMissing(p, i, j) else Within(p, i, j, s))
  {
    if s != NONE {
      LocatedAttained(p, i, j, s);
      var x :| i <= x < j && !p.Miss(x) && p.ic[x] == s.lo;
      assert 0 <= x < |p.ic| && !p.Miss(x);
    }
  }

  /** The same computation when A has lost every point. */
  method Leftover(p: Problem, s: Stats) returns (ok: bool, a: Cand)
    requires s == NONE
    ensures ok && Roomy(p, a) && a.allMiss && a.s.lo == a.s.hi == 0 && (p.is523 != 2 ==> a.width == 0)
  {
    var w := 0;
    if p.is523 == 2 { w := TwoBitWidth(); }
    ok, a := true, Cand(Stats(0, 0, s.loAt, s.hiAt), w, true);
    Pow2Small();
  }

  // ----- moving points from B's front to A

  /** Each extreme of s is that of s0 or occurs in [i, j). */
  ghost predicate Drawn(p: Problem, i: nat, j: nat, s0: Stats, s: Stats)
    requires j <= |p.ic|
  {
    && s.lo <= s0.lo && s.hi >= s0.hi
    && (s.lo == s0.lo || exists x :: i <= x < j && !p.Miss(x) && p.ic[x] == s.lo)
    && (s.hi == s0.hi || exists y :: i <= y < j && !p.Miss(y) && p.ic[y] == s.hi)
  }

  lemma {:induction false} DrawnMore(p: Problem, i: nat, j: nat, s0: Stats, s: Stats, s': Stats)
    requires i <= j < |p.ic| && Drawn(p, i, j, s0, s)
    requires p.Miss(j) ==> s' == s
    requires !p.Miss(j) ==> (s'.lo == p.ic[j] <= s.lo) || (s'.lo == s.lo)
    requires !p.Miss(j) ==> (s'.hi == p.ic[j] >= s.hi) || (s'.hi == s.hi)
    ensures Drawn(p, i, j + 1, s0, s')
  {
    if s'.lo != s0.lo && s'.lo != s.lo { assert i <= j < j + 1 && !p.Miss(j) && p.ic[j] == s'.lo; }
    if s'.hi != s0.hi && s'.hi != s.hi { assert i <= j < j + 1 && !p.Miss(j) && p.ic[j] == s'.hi; }
  }

  /** s0 extended over [i, j) by strict comparisons. */
  method ScanNext(p: Problem, s0: Stats, i: nat, j: nat) returns (s: Stats)
    requires i <= j <= |p.ic|
    ensures Drawn(p, i, j, s0, s) && Within(p, i, j, s)
  {
    hide Drawn;
    s := s0;
    assert Drawn(p, i, i, s0, s) by { DrawnNothing(p, i, s0); }
    for k := i to j
      invariant Drawn(p, i, k, s0, s) && Within(p, i, k, s)
    {
      ghost var t := s;
      if !p.Miss(k) {
        if p.ic[k] < s.lo { s := s.(lo := p.ic[k], loAt := k + 1); }
        if p.ic[k] > s.hi { s := s.(hi := p.ic[k], hiAt := k + 1); }
      }
      DrawnMore(p, i, k, s0, t, s);
    }
  }

  lemma {:induction false} DrawnNothing(p: Problem, i: nat, s: Stats)
    requires i <= |p.ic|
    ensures Drawn(p, i, i, s, s)
  {
  }

  /** One of the points [i, j) is outside A's range. */
  ghost predicate Outside(p: Problem, i: nat, j: nat, a: Cand)
    requires j <= |p.ic|
  {
    exists x :: i <= x < j && !p.Miss(x) && (a.allMiss || !(a.s.lo <= p.ic[x] <= a.s.hi))
  }

  /** A value that A together with the points [i, j) has to hold. */
  ghost predicate ToHold(p: Problem, i: nat, j: nat, a: Cand, v: int)
    requires j <= |p.ic|
  {
    (!a.allMiss && (v == a.s.lo || v == a.s.hi)) || exists x :: i <= x < j && !p.Miss(x) && p.ic[x] == v
  }

  /** A's width has no room for its own bounds and the points [i, j). */
  ghost predicate NoRoom(p: Problem, i: nat, j: nat, a: Cand)
    requires j <= |p.ic|
  {
    hide Pow2;
    exists u, v :: ToHold(p, i, j, a, u) && ToHold(p, i, j, a, v) && v - u + p.Lmiss() >= Pow2(a.width)
  }

  /** The trial group C of A and the next kinc points; near the end of the field, all the rest. */
  method TryAbsorb(p: Problem, lminpk: nat, start: nat, t: nat, kinc0: nat, a0: Cand)
    returns (fits: bool, kinc: nat, t': nat, a: Cand)
    requires p.Valid() && 1 <= kinc0 && start < t < |p.ic| && CandOk(p, start, t, a0)
    ensures kinc == (if |p.ic| - (t + kinc0) <= lminpk / 2 then |p.ic| - t else kinc0)
    ensures t' == Min(t + kinc, |p.ic|) && t < t'
    ensures fits ==> CandOk(p, start, t', a) && a.width == a0.width && Leaves(p, lminpk, t')
    ensures fits && Sharp(p, start, t, a0) ==> Sharp(p, start, t', a)
    ensures !fits ==> Outside(p, t, t', a0) && NoRoom(p, t, t', a0)
  {
    var s0 := if a0.allMiss then NONE else a0.s.(hiAt := a0.s.loAt);
    kinc := kinc0;
    if |p.ic| - (t + kinc) <= lminpk / 2 {
      kinc := |p.ic| - t;
    }
    t' := Min(t + kinc, |p.ic|);
    var s := ScanNext(p, s0, t, t');
    if s.lo == MALLOW {
      fits, a := true, Cand(a0.s, a0.width, true);
    } else {
      fits, a := s.hi - s.lo < Pow2(a0.width) - p.Lmiss(), Cand(s, a0.width, false);
    }
    if fits {
      Absorbed(p, start, t, t', a0, s, a);
    } else {
      Refused(p, t, t', a0, s0, s);
      TooWideTogether(p, t, t', a0, s0, s);
    }
  }

  lemma {:induction false} Absorbed(p: Problem, start: nat, t: nat, t': nat, a0: Cand, s: Stats, a: Cand)
    requires p.Valid() && start < t < t' <= |p.ic| && CandOk(p, start, t, a0)
    requires Drawn(p, t, t', if a0.allMiss then NONE else a0.s, s) && Within(p, t, t', s)
    requires if s.lo == MALLOW then a == Cand(a0.s, a0.width, true)
             else a == Cand(s, a0.width, false) && s.hi - s.lo < Pow2(a0.width) - p.Lmiss()
    ensures CandOk(p, start, t', a)
    ensures Sharp(p, start, t, a0) ==> Sharp(p, start, t', a)
  {
    assert start <= start < t;
    if a0.allMiss {
      assert p.Miss(start);
      if s.lo == MALLOW {
        assert forall k :: t <= k < t' ==> p.ic[k] < s.lo;
      } else {
        assert Attained(p, t, t', s);
        var x :| t <= x < t' && !p.Miss(x) && p.ic[x] == s.lo;
        assert s.lo <= s.hi;
        Pow2Small();
      }
    } else {
      assert Within(p, start, t, a0.s);
      if Attained(p, start, t, a0.s) { AttainedDrawn(p, start, t, t', a0.s, s); }
    }
  }

  lemma {:induction false} AttainedDrawn(p: Problem, start: nat, t: nat, t': nat, s0: Stats, s: Stats)
    requires start <= t <= t' <= |p.ic| && Attained(p, start, t, s0) && Drawn(p, t, t', s0, s)
    ensures Attained(p, start, t', s)
  {
    var x :| start <= x < t && !p.Miss(x) && p.ic[x] == s0.lo;
    var y :| start <= y < t && !p.Miss(y) && p.ic[y] == s0.hi;
  }

  lemma {:induction false} Refused(p: Problem, t: nat, t': nat, a0: Cand, s0: Stats, s: Stats)
    requires p.Valid() && t <= t' <= |p.ic| && Roomy(p, a0) && s.lo != MALLOW
    requires a0.s.lo <= a0.s.hi && (a0.allMiss ==> s0 == NONE)
    requires !a0.allMiss ==> s0.lo == a0.s.lo && s0.hi == a0.s.hi
    requires Drawn(p, t, t', s0, s) && s.hi - s.lo >= Pow2(a0.width) - p.Lmiss()
    ensures Outside(p, t, t', a0)
  {
  }

  lemma {:induction false} TooWideTogether(p: Problem, t: nat, t': nat, a0: Cand, s0: Stats, s: Stats)
    requires p.Valid() && t <= t' <= |p.ic| && s.lo != MALLOW && (a0.allMiss ==> s0 == NONE)
    requires !a0.allMiss ==> s0.lo == a0.s.lo && s0.hi == a0.s.hi
    requires Drawn(p, t, t', s0, s) && Within(p, t, t', s) && s.hi - s.lo >= Pow2(a0.width) - p.Lmiss()
    ensures NoRoom(p, t, t', a0)
  {
    hide Pow2;
    assert ToHold(p, t, t', a0, s.lo) && ToHold(p, t, t', a0, s.hi) by {
      if a0.allMiss {
        var x :| t <= x < t' && !p.Miss(x) && p.ic[x] == s.lo;
        assert p.ic[x] <= s.hi;
      }
    }
  }

  // ----- why a group is closed, and why it grew

  /** The points [i, j) need at least w bits. */
  ghost predicate NeedsBits(p: Problem, i: nat, j: nat, w: nat)
    requires j <= |p.ic|
  {
    hide Pow2;
    || w == 0 || (p.is523 == 2 && w <= 2)
    || exists x, y :: i <= x < j && i <= y < j && !p.Miss(x) && !p.Miss(y) &&
         p.ic[y] - p.ic[x] + p.Lmiss() >= Pow2(w - 1)
  }

  /** The stretch ahead of point e, a smallest group at least, needs w bits or more. */
  ghost predicate Ahead(p: Problem, lminpk: nat, e: nat, w: nat)
    requires 1 <= lminpk && e < |p.ic|
  {
    hide NextEnd, NeedsBits;
    exists nb :: NextEnd(p, lminpk, e) <= nb <= |p.ic| && NeedsBits(p, e, nb, w)
  }

  /** A took in points only where the stretch ahead was no narrower; the rest of the field goes in at once. */
  ghost predicate GrewWell(p: Problem, lminpk: nat, t0: nat, end: nat, w: nat)
    requires 1 <= lminpk && end <= |p.ic|
  {
    hide Ahead;
    forall e :: t0 <= e < end && (e == t0 || |p.ic| - e > lminpk / 2) ==> Ahead(p, lminpk, e, w)
  }

  /**
   * A is closed at `end` for one of three reasons.  B is narrower and A has grown; B is narrower
   * and takes in A's points back to one that does not fit it; or the next points do not fit A.
   */
  ghost predicate ClosedWell(p: Problem, t0: nat, kinc: nat, a0: Cand, start: nat, end: nat, a: Cand, b: Cand)
    requires t0 <= |p.ic| && start <= end < |p.ic|
  {
    hide Stuck, NoRoom, Outside;
    || (t0 < end && b.width < a.width && a.width == a0.width)
    || (end <= t0 && b.width < a0.width && (start < end ==> Stuck(p, end, b)))
    || (t0 <= end && a.width == a0.width <= b.width &&
        Outside(p, end, Min(end + kinc, |p.ic|), a) && NoRoom(p, end, Min(end + kinc, |p.ic|), a))
  }

  lemma {:induction false} KnownAhead(p: Problem, lminpk: nat, e: nat, cover: nat, b: Cand, w: nat)
    requires 1 <= lminpk && e < |p.ic| && cover <= |p.ic| && NextEnd(p, lminpk, e) <= cover
    requires Known(p, e, cover, b) && w <= b.width
    ensures Ahead(p, lminpk, e, w)
  {
    hide NextEnd, Pow2;
    if 0 < w && !(p.is523 == 2 && w <= 2) {
      var x, y := b.s.loAt - 1, b.s.hiAt - 1;
      if w < b.width { Pow2Monotone(w - 1, b.width - 1); }
      assert e <= x < cover && e <= y < cover && !p.Miss(x) && !p.Miss(y);
    }
    assert NeedsBits(p, e, cover, w);
  }

  lemma {:induction false} GrewMore(p: Problem, lminpk: nat, t0: nat, end: nat, end': nat, w: nat)
    requires 1 <= lminpk && t0 <= end < end' <= |p.ic| && GrewWell(p, lminpk, t0, end, w) && Ahead(p, lminpk, end, w)
    requires end' == end + 1 || (end' == |p.ic| && |p.ic| - (end + 1) <= lminpk / 2)
    ensures GrewWell(p, lminpk, t0, end', w)
  {
    hide Ahead;
  }

  // ----- one group

  /**
   * After A has taken points off B's front: B's end is not drawn back behind `cover`, or only
   * along a run of the value that A ends with.
   */
  ghost predicate Trail(p: Problem, lminpk: nat, t: nat, cover: nat, re: nat)
    requires 1 <= lminpk && 0 < t < |p.ic| && cover <= |p.ic|
  {
    || NextEnd(p, lminpk, t) >= cover
    || (t < re <= cover && Constant(p, t - 1, re) && (cover == re || (cover == |p.ic| && |p.ic| - re <= lminpk / 2)))
  }

  lemma {:induction false} NextEndMonotone(p: Problem, lminpk: nat, t: nat, t': nat)
    requires 1 <= lminpk && t <= t' < |p.ic|
    ensures NextEnd(p, lminpk, t) <= NextEnd(p, lminpk, t')
  {
  }

  lemma {:induction false} TrailStarts(p: Problem, lminpk: nat, t: nat, cover: nat, re: nat)
    requires 1 <= lminpk && t + 1 < |p.ic| && cover <= |p.ic| && RunAhead(p, lminpk, t, cover, re) && t + 1 < cover
    ensures Trail(p, lminpk, t + 1, cover, re)
  {
    NextEndMonotone(p, lminpk, t, t + 1);
  }

  lemma {:induction false} TrailGoesOn(p: Problem, lminpk: nat, t: nat, cover: nat, re: nat, cover': nat)
    requires 1 <= lminpk && 0 < t && t + 1 < |p.ic| && cover <= |p.ic| && Trail(p, lminpk, t, cover, re)
    requires cover' == Max(cover, NextEnd(p, lminpk, t)) && t + 1 < cover'
    ensures Trail(p, lminpk, t + 1, cover', re)
  {
    NextEndMonotone(p, lminpk, t, t + 1);
    if NextEnd(p, lminpk, t) < cover && t + 1 < re {
      assert p.ic[t] == p.ic[t - 1];
      assert Constant(p, t, re);
    }
  }

  /** While B is drawn back, the next point repeats A's last one, so A takes it. */
  lemma {:induction false} DrawnBackTaken(p: Problem, lminpk: nat, start: nat, t: nat, cover: nat, re: nat, a: Cand)
    requires 1 <= lminpk && start < t < |p.ic| && cover <= |p.ic| && Trail(p, lminpk, t, cover, re)
    requires NextEnd(p, lminpk, t) < cover && CandOk(p, start, t, a)
    ensures |p.ic| - (t + 1) > lminpk / 2
    ensures !Outside(p, t, t + 1, a)
  {
    assert p.ic[t] == p.ic[t - 1] && p.Miss(t) == p.Miss(t - 1);
    assert start <= t - 1 < t;
  }

  lemma {:induction false} KnownSuffix(p: Problem, t: nat, t': nat, cover: nat, b: Cand)
    requires t <= t' < cover <= |p.ic| && Known(p, t, cover, b) && b.s.loAt > t' && b.s.hiAt > t'
    requires p.Valid()
    ensures !b.allMiss && Known(p, t', cover, b)
  {
  }

  lemma {:induction false} KnownKept(p: Problem, i: nat, j: nat, c: Cand)
    requires j <= |p.ic| && Known(p, i, j, c)
    ensures Kept(p, i, j, c)
  {
  }

  /** B needs fewer bits than A, and A has not grown: A gives points back and is closed. */
  method GiveBack(p: Problem, start: nat, t: nat, a0: Cand, b0: Cand, nendb: nat, ghost tight: bool)
    returns (ok: bool, a: Cand, end: nat, b: Cand)
    requires p.Valid() && start < t < nendb <= |p.ic| && CandOk(p, start, t, a0) && CandOk(p, t, nendb, b0)
    requires b0.width < a0.width && (p.is523 == 2 ==> b0.width >= 2)
    requires tight ==> Kept(p, start, t, a0) && Kept(p, t, nendb, b0)
    ensures ok ==> start <= end <= t && CandOk(p, start, end, a) && CandOk(p, end, nendb, b)
    ensures ok && tight ==> start < end && Sharp(p, start, end, a) && Kept(p, end, nendb, b)
    ensures ok && start < end ==> Stuck(p, end, b)
    ensures b.width == b0.width
    ensures Narrow(p) ==> ok
  {
    hide CandOk, Kept, Sharp, Narrow, Pow2, Stuck;
    ok, a := true, a0;
    var kept;
    kept, b := Lookback(p, start, t, b0, nendb);
    end := start + kept;
    if tight {
      KeptSharp(p, start, t, a0);
      if kept == 0 { NoNarrower(p, start, t, a0, b, nendb); }
    }
    if end < t {
      ok, a := Recut(p, start, end, a0, t);
    }
  }

  /** From a group A = [start, t0) to the closed group [start, end) and the next group [end, nendb). */
  method BuildGroup(p: Problem, lminpk: nat, kinc0: nat, start: nat, t0: nat, a0: Cand, ghost tight: bool)
    returns (ok: bool, kinc: nat, a: Cand, end: nat, b: Cand, nendb: nat)
    requires p.Valid() && 1 <= lminpk && 1 <= kinc0 && start < t0 < |p.ic| && CandOk(p, start, t0, a0)
    requires tight ==> kinc0 == 1 && Kept(p, start, t0, a0)
    ensures 1 <= kinc && (lminpk == 1 ==> kinc <= kinc0)
    ensures ok ==> start <= end <= |p.ic| && CandOk(p, start, end, a)
    ensures ok && end < |p.ic| ==> NextEnd(p, lminpk, t0) <= nendb <= |p.ic| && end < nendb && CandOk(p, end, nendb, b)
    ensures ok && tight ==> start < end && Sharp(p, start, end, a)
    ensures ok && tight && end < |p.ic| ==> Kept(p, end, nendb, b) && (kinc == 1 || nendb == |p.ic|)
    ensures ok && end < |p.ic| ==> ClosedWell(p, t0, kinc, a0, start, end, a, b)
    ensures ok && tight ==> GrewWell(p, lminpk, t0, end, a0.width)
    ensures ok && end > t0 ==> a.width == a0.width
    ensures ok && end < |p.ic| ==> Leaves(p, lminpk, nendb)
    ensures ok && (t0 < end || Leaves(p, lminpk, t0)) ==> Leaves(p, lminpk, end)
    ensures Narrow(p) ==> ok
  {
    hide CandOk, Kept, Known, Sharp, Sane, RunAhead, Trail, NextEnd, Narrow, Outside, Pow2, NoRoom, Stuck, Ahead,
         GrewWell, ClosedWell, Leaves, Min;
    GrewNothing(p, lminpk, t0, a0.width);
    kinc, a, end := kinc0, a0, t0;
    b, nendb := a0, 1;
    var anew, adda := true, false;
    ghost var cover: nat, re: nat := t0, t0;
    if tight { KeptSharp(p, start, t0, a0); }
    while true
      invariant t0 <= end < |p.ic| && CandOk(p, start, end, a) && 1 <= kinc && (lminpk == 1 ==> kinc <= kinc0)
      invariant a.width == a0.width && (adda ==> t0 < end) && (t0 < end ==> Leaves(p, lminpk, end))
      invariant tight ==> GrewWell(p, lminpk, t0, end, a0.width)
      invariant !adda ==> end == t0 && a == a0 && anew
      invariant !anew ==>
        nendb <= |p.ic| && CandOk(p, end, nendb, b) && !b.allMiss && Sane(p, b.s) && b.width >= a.width
      invariant tight ==> kinc == 1 && Sharp(p, start, end, a)
      invariant tight && !anew ==>
        end <= nendb <= cover <= |p.ic| && end < cover && Known(p, end, cover, b) && Trail(p, lminpk, end, cover, re)
      decreases |p.ic| - end
    {
      NextEndMonotone(p, lminpk, t0, end);
      ghost var cover0, re0 := cover, re;
      ok, b, nendb, cover, re := Lookahead(p, lminpk, end, anew, b, nendb, tight, cover);
      if !ok { return; }
      if !anew { re := re0; }
      if b.width < a.width {
        assert anew;
        if tight { KnownKept(p, end, nendb, b); }
        if !adda {
          ok, a, end, b := GiveBack(p, start, end, a, b, nendb, tight);
          if ok {
            GrewLess(p, lminpk, t0, end, a0.width);
            ClosedBack(p, lminpk, t0, kinc, a0, start, end, a, b);
          }
        } else {
          ClosedGrown(p, t0, kinc, a0, start, end, a, b);
        }
        return;
      }
      if tight { KnownAhead(p, lminpk, end, cover, b, a0.width); }
      var fits, end', a';
      fits, kinc, end', a' := TryAbsorb(p, lminpk, start, end, kinc, a);
      Step(p, end, kinc, end');
      if !fits {
        ClosedFull(p, t0, kinc, a0, start, end, end', a, b);
        if tight {
          if nendb < cover { DrawnBackTaken(p, lminpk, start, end, cover0, re, a); }
          KnownKept(p, end, nendb, b);
          RestReached(p, lminpk, end, nendb);
        }
        return;
      }
      if tight { GrewMore(p, lminpk, t0, end, end', a0.width); }
      if end' >= |p.ic| {
        end, a := end', a';
        return;
      }
      if tight {
        if anew { if end + 1 < cover { TrailStarts(p, lminpk, end, cover, re); } }
        else { if end + 1 < cover { TrailGoesOn(p, lminpk, end, cover0, re, cover); } }
        RestReached(p, lminpk, end, nendb);
      }
      anew := !(b.s.loAt > end' && b.s.hiAt > end');
      if !anew {
        Survives(p, end, end', nendb, b, tight, cover);
      }
      end, a, adda := end', a', true;
    }
  }

  lemma {:induction false} Step(p: Problem, t: nat, kinc: nat, t': nat)
    requires t' == Min(t + kinc, |p.ic|)
    ensures t' == if t + kinc < |p.ic| then t + kinc else |p.ic|
  {
  }

  lemma {:induction false} ClosedGrown(p: Problem, t0: nat, kinc: nat, a0: Cand, start: nat, end: nat, a: Cand, b: Cand)
    requires start <= end < |p.ic| && t0 < end && b.width < a.width == a0.width
    ensures ClosedWell(p, t0, kinc, a0, start, end, a, b)
  {
  }

  lemma {:induction false} ClosedBack(p: Problem, lminpk: nat, t0: nat, kinc: nat, a0: Cand, start: nat, end: nat,
                                      a: Cand, b: Cand)
    requires start <= end <= t0 < |p.ic| && b.width < a0.width && (start < end ==> Stuck(p, end, b))
    ensures ClosedWell(p, t0, kinc, a0, start, end, a, b) && (Leaves(p, lminpk, t0) ==> Leaves(p, lminpk, end))
  {
    hide Stuck;
  }

  lemma {:induction false} ClosedFull(p: Problem, t0: nat, kinc: nat, a0: Cand, start: nat, end: nat, next: nat,
                                      a: Cand, b: Cand)
    requires start <= end < |p.ic| && t0 <= end && a.width == a0.width <= b.width && next == Min(end + kinc, |p.ic|)
    requires Outside(p, end, next, a) && NoRoom(p, end, next, a)
    ensures ClosedWell(p, t0, kinc, a0, start, end, a, b)
  {
    hide Outside, NoRoom;
  }

  lemma {:induction false} GrewNothing(p: Problem, lminpk: nat, t0: nat, w: nat)
    requires 1 <= lminpk && t0 <= |p.ic|
    ensures GrewWell(p, lminpk, t0, t0, w)
  {
  }

  lemma {:induction false} GrewLess(p: Problem, lminpk: nat, t0: nat, end: nat, w: nat)
    requires 1 <= lminpk && end <= t0 && end <= |p.ic|
    ensures GrewWell(p, lminpk, t0, end, w)
  {
  }

  /** Near the end of the field B reaches it. */
  lemma {:induction false} RestReached(p: Problem, lminpk: nat, t: nat, nendb: nat)
    requires 1 <= lminpk && t < |p.ic| && NextEnd(p, lminpk, t) <= nendb <= |p.ic|
    ensures |p.ic| - (t + 1) <= lminpk / 2 ==> nendb == |p.ic|
  {
  }

  lemma {:induction false} Survives(p: Problem, t: nat, t': nat, nendb: nat, b: Cand, tight: bool, cover: nat)
    requires p.Valid() && t < t' <= |p.ic| && nendb <= |p.ic| && CandOk(p, t, nendb, b)
    requires b.s.loAt > t' && b.s.hiAt > t'
    requires !b.allMiss ==> Sane(p, b.s)
    requires tight ==> nendb <= cover <= |p.ic| && Known(p, t, cover, b)
    requires b.allMiss ==> b.s.hiAt == -MALLOW
    ensures CandOk(p, t', nendb, b) && !b.allMiss
    ensures tight ==> t' < cover && Known(p, t', cover, b)
  {
    if tight { KnownSuffix(p, t, t', cover, b); }
  }

  // ----- the whole field

  /** A finished group; misslx is MALLOW unless all its points are missing. */
  datatype Grp = Grp(jmin: int, jmax: int, lbit: nat, nov: nat, misslx: int)

  function CandOf(g: Grp): (c: Cand)
  {
    Cand(Stats(g.jmin, g.jmax, 0, 0), g.lbit, g.misslx != MALLOW)
  }

  /** The groups lie end to end over the first n points, each within its bounds and its width. */
  ghost predicate Tiles(p: Problem, gs: seq<Grp>, n: nat)
    requires n <= |p.ic|
  {
    if gs == [] then n == 0
    else
      var g := gs[|gs| - 1];
      g.nov <= n && CandOk(p, n - g.nov, n, CandOf(g)) && Tiles(p, gs[..|gs| - 1], n - g.nov)
  }

  /** Moreover no group is empty and every width is the least for its group. */
  ghost predicate TilesSharply(p: Problem, gs: seq<Grp>, n: nat)
    requires n <= |p.ic|
  {
    gs == [] ||
      (var g := gs[|gs| - 1];
       1 <= g.nov <= n && Sharp(p, n - g.nov, n, CandOf(g)) && TilesSharply(p, gs[..|gs| - 1], n - g.nov))
  }

  lemma {:induction false} TilesSnoc(p: Problem, gs: seq<Grp>, start: nat, end: nat, c: Cand, g: Grp)
    requires p.Valid() && start <= end <= |p.ic| && Tiles(p, gs, start) && CandOk(p, start, end, c)
    requires g.jmin == c.s.lo && g.jmax == c.s.hi && g.lbit == c.width && g.nov == end - start
    requires c.allMiss == (g.misslx != MALLOW)
    ensures Tiles(p, gs + [g], end)
    ensures TilesSharply(p, gs, start) && start < end && Sharp(p, start, end, c) ==> TilesSharply(p, gs + [g], end)
  {
    assert (gs + [g])[..|gs|] == gs;
    SameExtremes(p, start, end, c, CandOf(g));
  }

  lemma {:induction false} SameExtremes(p: Problem, i: nat, j: nat, c: Cand, c': Cand)
    requires j <= |p.ic| && c'.s.lo == c.s.lo && c'.s.hi == c.s.hi && c'.width == c.width && c'.allMiss == c.allMiss
    ensures CandOk(p, i, j, c) ==> CandOk(p, i, j, c')
    ensures Sharp(p, i, j, c) ==> Sharp(p, i, j, c')
  {
  }

  /** The first group: a long run of one value (and missing points) makes it large. */
  /** The field begins with one value, missing points passed over, just up to n. */
  ghost predicate RunTo(p: Problem, n: nat)
  {
    && 1 < n < |p.ic| && p.ic[0] == p.ic[1] && !p.Miss(n) && p.ic[n] != p.ic[0]
    && forall k :: 0 <= k < n ==> p.Miss(k) || p.ic[k] == p.ic[0]
  }

  /** That run is longer than the smallest group and all but the last half of one. */
  ghost predicate LongRun(p: Problem, lminpk: nat)
    requires 1 <= lminpk && 1 <= |p.ic|
  {
    hide RunTo, NextEnd;
    exists n :: NextEnd(p, lminpk, 0) < n < |p.ic| && |p.ic| - n <= lminpk / 2 && RunTo(p, n)
  }

  method FirstGroup(p: Problem, lminpk: nat) returns (ok: bool, a: Cand, nenda: nat)
    requires p.Valid() && 1 <= lminpk && 1 <= |p.ic|
    ensures NextEnd(p, lminpk, 0) <= nenda <= |p.ic|
    ensures nenda > NextEnd(p, lminpk, 0) ==> forall k :: 0 <= k < nenda ==> p.Miss(k) || p.ic[k] == p.ic[0]
    ensures NextEnd(p, lminpk, 0) < nenda < |p.ic| ==> !p.Miss(nenda) && p.ic[nenda] != p.ic[0]
    ensures nenda < |p.ic| && p.ic[0] == p.ic[1] ==> exists k :: 1 < k <= nenda && !p.Miss(k) && p.ic[k] != p.ic[0]
    ensures Leaves(p, lminpk, nenda) <==> !LongRun(p, lminpk)
    ensures LongRun(p, lminpk) ==> RunTo(p, nenda)
    ensures ok ==> Known(p, 0, nenda, a)
    ensures Narrow(p) ==> ok
  {
    hide *;
    nenda := NextEnd(p, lminpk, 0);
    if nenda != |p.ic| && p.ic[0] == p.ic[1] {
      var k := FirstRun(p);
      RunFound(p, lminpk, k);
      if k > nenda { nenda := k; }
    } else {
      NoLongRun(p, lminpk);
    }
    var s := ScanStrict(p, 0, nenda);
    SeenSane(p, 0, nenda, s);
    ok, a := Candidate(p, s, 0, 0, nenda, true, nenda);
  }

  lemma {:induction false} NoLongRun(p: Problem, lminpk: nat)
    requires 1 <= lminpk && 1 <= |p.ic| && (NextEnd(p, lminpk, 0) == |p.ic| || p.ic[0] != p.ic[1])
    ensures !LongRun(p, lminpk)
  {
    hide NextEnd;
  }

  lemma {:induction false} RunFound(p: Problem, lminpk: nat, k: nat)
    requires 1 <= lminpk && 1 < |p.ic| && p.ic[0] == p.ic[1] && 1 < k <= |p.ic|
    requires forall i :: 0 <= i < k ==> p.Miss(i) || p.ic[i] == p.ic[0]
    requires k < |p.ic| ==> !p.Miss(k) && p.ic[k] != p.ic[0]
    ensures k < |p.ic| ==> RunTo(p, k)
    ensures LongRun(p, lminpk) <==> NextEnd(p, lminpk, 0) < k < |p.ic| && |p.ic| - k <= lminpk / 2
    ensures var n := NextEnd(p, lminpk, 0); Leaves(p, lminpk, if k > n then k else n) <==> !LongRun(p, lminpk)
    ensures LongRun(p, lminpk) ==> k > NextEnd(p, lminpk, 0)
  {
    hide NextEnd;
    if k < |p.ic| { assert RunTo(p, k); }
    if LongRun(p, lminpk) {
      var n :| NextEnd(p, lminpk, 0) < n < |p.ic| && |p.ic| - n <= lminpk / 2 && RunTo(p, n);
    }
  }

  /** The end of the run of the first value, missing points passed over. */
  method FirstRun(p: Problem) returns (k: nat)
    requires p.Valid() && 1 <= |p.ic|
    ensures k <= |p.ic| && forall i :: 0 <= i < k ==> p.Miss(i) || p.ic[i] == p.ic[0]
    ensures |p.ic| > 1 && p.ic[0] == p.ic[1] ==> 1 < k
    ensures k < |p.ic| ==> !p.Miss(k) && p.ic[k] != p.ic[0]
  {
    k := 1;
    while k < |p.ic| && (p.Miss(k) || p.ic[k] == p.ic[0])
      invariant k <= |p.ic| && forall i :: 0 <= i < k ==> p.Miss(i) || p.ic[i] == p.ic[0]
    {
      k := k + 1;
    }
  }

  datatype Outcome = Done | TooMany | TooWide

  lemma {:induction false} CountBound(k: nat, d: nat, n: nat)
    requires d >= 1 && k * d <= n
    ensures k <= n / d
  {
    assert n == n / d * d + n % d;
    MulSucc(n / d, d);
    if k > n / d { MulLe(n / d + 1, k, d); }
  }

  /** How a group came to be: it began as a0 on [start, t0), and was closed at `end` as a, with b ahead. */
  datatype Closing = Closing(start: nat, t0: nat, a0: Cand, kinc: nat, end: nat, a: Cand, b: Cand)

  ghost predicate Explained(p: Problem, lminpk: nat, tight: bool, c: Closing, g: Grp)
    requires 1 <= lminpk
  {
    hide ClosedWell, GrewWell, CandOk;
    && c.start <= c.end <= |p.ic| && c.start < c.t0 <= |p.ic| && g.nov == c.end - c.start && g.lbit == c.a.width
    && CandOk(p, c.start, c.t0, c.a0)
    && (c.end < |p.ic| ==> ClosedWell(p, c.t0, c.kinc, c.a0, c.start, c.end, c.a, c.b))
    && (tight ==> GrewWell(p, lminpk, c.t0, c.end, c.a0.width))
  }

  /** Every group is explained, and each began as the group that was looked ahead to when the one before was closed. */
  ghost predicate AllExplained(p: Problem, lminpk: nat, tight: bool, gs: seq<Grp>, cs: seq<Closing>)
    requires 1 <= lminpk
  {
    hide Explained;
    && |cs| == |gs|
    && (forall i :: 0 <= i < |gs| ==> Explained(p, lminpk, tight, cs[i], gs[i]))
    && (forall i :: 0 < i < |cs| ==> cs[i].start == cs[i - 1].end && cs[i].a0 == cs[i - 1].b)
  }

  ghost predicate Follow(cs: seq<Closing>, start: nat, a: Cand)
  {
    cs != [] ==> cs[|cs| - 1].end == start && cs[|cs| - 1].b == a
  }

  lemma {:induction false} ExplainedMore(p: Problem, lminpk: nat, tight: bool, gs: seq<Grp>, cs: seq<Closing>, g: Grp,
                                         c: Closing)
    requires 1 <= lminpk && AllExplained(p, lminpk, tight, gs, cs) && Follow(cs, c.start, c.a0)
    requires Explained(p, lminpk, tight, c, g)
    ensures AllExplained(p, lminpk, tight, gs + [g], cs + [c]) && Follow(cs + [c], c.end, c.b)
  {
    hide Explained;
  }

  // ----- the last group

  /** After `done` groups: what is left behind A, and behind the groups closed so far. */
  ghost predicate Stage(p: Problem, lminpk: nat, done: nat, start: nat, t: nat, a: Cand)
    requires 1 <= lminpk && 1 <= |p.ic|
  {
    hide LongRun, RunTo, Known;
    && t <= |p.ic| && (done > 0 || !LongRun(p, lminpk) ==> Leaves(p, lminpk, t))
    && (done > 1 || (done == 1 && !LongRun(p, lminpk)) ==> Leaves(p, lminpk, start))
    && (LongRun(p, lminpk) ==>
          || (done == 0 && start == 0 && RunTo(p, t) && Known(p, 0, t, a))
          || (done == 1 && RunTo(p, start) && t == |p.ic|))
  }

  /** A run of one value takes no bits, and takes in no other value. */
  lemma {:induction false} RunIsClosed(p: Problem, n: nat, a0: Cand, end: nat, a: Cand)
    requires p.is523 == 0 && RunTo(p, n) && Known(p, 0, n, a0)
    ensures a0.width == 0
    ensures n < end <= |p.ic| ==> !(CandOk(p, 0, end, a) && a.width == a0.width)
  {
    assert Pow2(0) == 1;
    assert p.ic[0] == a0.s.lo == a0.s.hi by {
      assert !p.Miss(0) && !p.Miss(a0.s.loAt - 1) && !p.Miss(a0.s.hiAt - 1);
    }
    hide Pow2;
    if n < end <= |p.ic| && CandOk(p, 0, end, a) {
      assert !p.Miss(0) && !p.Miss(n);
      assert !a.allMiss;
      assert a.s.lo <= p.ic[0] <= a.s.hi && a.s.lo <= p.ic[n] <= a.s.hi;
    }
  }

  /** What reaches beyond the run is no narrower. */
  lemma {:induction false} RunIsNarrow(p: Problem, n: nat, a0: Cand, i: nat, j: nat, b: Cand)
    requires p.Valid() && RunTo(p, n) && Known(p, 0, n, a0) && i <= n < j <= |p.ic| && CandOk(p, i, j, b)
    ensures a0.width <= b.width
  {
    Pow2Small();
    assert !b.allMiss && b.s.lo <= p.ic[n] <= b.s.hi;
    if !a0.allMiss {
      assert p.ic[a0.s.loAt - 1] == p.ic[0] && p.ic[a0.s.hiAt - 1] == p.ic[0];
      if a0.width > 1 { Pow2Monotone(1, a0.width - 1); }
    }
    if b.width <= 1 { Pow2Monotone(b.width, 1); }
  }

  lemma {:induction false} RunIsLong(p: Problem, lminpk: nat, n: nat)
    requires 1 <= lminpk && 1 <= |p.ic| && LongRun(p, lminpk) && RunTo(p, n)
    ensures |p.ic| - n <= lminpk / 2
  {
    hide NextEnd;
    var k :| NextEnd(p, lminpk, 0) < k < |p.ic| && |p.ic| - k <= lminpk / 2 && RunTo(p, k);
  }

  lemma {:induction false} StageFirst(p: Problem, lminpk: nat, t: nat, a: Cand)
    requires 1 <= lminpk && 1 <= |p.ic| && t <= |p.ic| && Known(p, 0, t, a)
    requires (Leaves(p, lminpk, t) <==> !LongRun(p, lminpk)) && (LongRun(p, lminpk) ==> RunTo(p, t))
    ensures Stage(p, lminpk, 0, 0, t, a)
  {
    hide LongRun, RunTo, Known;
  }

  lemma {:induction false} StageNext(p: Problem, lminpk: nat, done: nat, start: nat, t: nat, kinc: nat, a0: Cand,
                                     end: nat, a: Cand, nendb: nat, b: Cand)
    requires p.Valid() && 1 <= lminpk && start < t < |p.ic| && start <= end < nendb <= |p.ic| && t < nendb
    requires Stage(p, lminpk, done, start, t, a0) && CandOk(p, end, nendb, b) && Leaves(p, lminpk, nendb)
    requires t < end || Leaves(p, lminpk, t) ==> Leaves(p, lminpk, end)
    requires ClosedWell(p, t, kinc, a0, start, end, a, b)
    ensures Stage(p, lminpk, done + 1, end, nendb, b)
  {
    hide LongRun, RunTo, Known, CandOk, NoRoom, Outside, Stuck;
    if LongRun(p, lminpk) {
      if done == 1 { RunInside(p, start); }
      RunIsLong(p, lminpk, t);
      if end <= t { RunIsNarrow(p, t, a0, end, nendb, b); }
    }
  }

  lemma {:induction false} RunInside(p: Problem, n: nat)
    requires RunTo(p, n)
    ensures n < |p.ic|
  {
  }

  lemma {:induction false} StageLast(p: Problem, lminpk: nat, done: nat, start: nat, t: nat, a: Cand, end: nat,
                                     a': Cand)
    requires 1 <= lminpk && start < t <= end == |p.ic| && Stage(p, lminpk, done, start, t, a)
    requires CandOk(p, start, end, a') && (end > t ==> a'.width == a.width)
    ensures LastLong(p, lminpk, done + 1, end - start)
  {
    hide LongRun, RunTo, Known, CandOk;
    if LongRun(p, lminpk) {
      if done == 0 {
        RunInside(p, t);
        if p.is523 == 0 { RunIsClosed(p, t, a, end, a'); }
      } else {
        RunIsLong(p, lminpk, start);
      }
    }
  }

  /**
   * The last of several groups has more than half of the smallest group's points if and only if the
   * field does not begin with a long run, which without missing values always gives two groups.
   */
  ghost predicate LastLong(p: Problem, lminpk: nat, groups: nat, last: nat)
    requires 1 <= lminpk && 1 <= |p.ic|
  {
    hide LongRun;
    && (groups > 1 ==> (last > lminpk / 2 <==> !LongRun(p, lminpk)))
    && (LongRun(p, lminpk) ==> groups <= 2 && (p.is523 == 0 ==> groups == 2))
  }

  /** Twenty points of one value and one of another end in a group of one point. */
  lemma {:induction false} ShortLast()
    ensures var p := Problem(seq(20, _ => 5) + [7], 0, 0, 0); p.Valid() && LongRun(p, 10)
    ensures var p := Problem(seq(20, _ => 5) + [7], 0, 0, 0);
      forall groups: nat, last: nat :: LastLong(p, 10, groups, last) ==> groups == 2 && last <= 5
  {
    hide LongRun;
    var p := Problem(seq(20, _ => 5) + [7], 0, 0, 0);
    assert NextEnd(p, 10, 0) == 10 && RunTo(p, 20);
    RunMakesLong(p, 10, 20);
  }

  lemma {:induction false} RunMakesLong(p: Problem, lminpk: nat, n: nat)
    requires 1 <= lminpk && 1 <= |p.ic| && NextEnd(p, lminpk, 0) < n < |p.ic| && |p.ic| - n <= lminpk / 2 && RunTo(p, n)
    ensures LongRun(p, lminpk)
  {
    hide NextEnd, RunTo;
  }

  /** One pass over the field with room for ndg groups. */
  method SplitOnce(p: Problem, lminpk: nat, kinc0: nat, ndg: nat)
    returns (r: Outcome, gs: seq<Grp>, kinc: nat, ghost cs: seq<Closing>)
    requires p.Valid() && 1 <= lminpk && 1 <= kinc0 && 1 <= |p.ic|
    ensures 1 <= kinc && (lminpk == 1 ==> kinc <= kinc0)
    ensures r.Done? ==> Tiles(p, gs, |p.ic|) && 1 <= |gs| <= ndg && |gs| <= (|p.ic| - 1) / lminpk + 1
    ensures r.Done? && kinc0 == 1 ==> TilesSharply(p, gs, |p.ic|)
    ensures AllExplained(p, lminpk, kinc0 == 1, gs, cs)
    ensures r.Done? ==> LastLong(p, lminpk, |gs|, gs[|gs| - 1].nov)
    ensures r.TooMany? ==> ndg <= (|p.ic| - 1) / lminpk
    ensures Narrow(p) ==> !r.TooWide?
  {
    hide CandOk, Known, Kept, Sharp, Tiles, TilesSharply, Narrow, NextEnd, ClosedWell, GrewWell, Explained,
         AllExplained, Follow, Stage, LastLong, LongRun, RunTo, Leaves;
    gs, kinc, cs := [], kinc0, [];
    ghost var tight := kinc0 == 1;
    var start := 0;
    var ok, a, t := FirstGroup(p, lminpk);
    ExplainedNone(p, lminpk, tight, a);
    if !ok { return TooWide, gs, kinc, cs; }
    KnownKept(p, 0, t, a);
    StageFirst(p, lminpk, t, a);
    KeptOk(p, 0, t, a);
    TilesNone(p);
    FirstEnd(p, lminpk);
    ghost var least := 0;
    while true
      invariant 0 <= start < t <= |p.ic| && 1 <= kinc && Tiles(p, gs, start) && CandOk(p, start, t, a)
      invariant lminpk == 1 ==> kinc <= kinc0
      invariant AllExplained(p, lminpk, tight, gs, cs) && Follow(cs, start, a)
      invariant Stage(p, lminpk, |gs|, start, t, a)
      invariant tight ==> TilesSharply(p, gs, start) && Kept(p, start, t, a) && (kinc == 1 || t == |p.ic|)
      invariant |gs| <= ndg && least == |gs| * lminpk && least <= |p.ic| - 1 && (t == |p.ic| || least + lminpk <= t)
      decreases |p.ic| - t, |p.ic| - start
    {
      var end, b, nendb := t, a, t;
      ghost var a0 := a;
      if t < |p.ic| {
        ok, kinc, a, end, b, nendb := BuildGroup(p, lminpk, kinc, start, t, a, tight);
        if !ok { return TooWide, gs, kinc, cs; }
      } else {
        GrewNothing(p, lminpk, t, a.width);
        if tight { KeptSharp(p, start, t, a); }
      }
      CountBound(|gs|, lminpk, |p.ic| - 1);
      if |gs| + 1 > ndg { return TooMany, gs, kinc, cs; }
      var misslx := if !a.allMiss then MALLOW else if end > 0 then p.ic[end - 1] else 0;
      var g := Grp(a.s.lo, a.s.hi, a.width, end - start, misslx);
      TilesSnoc(p, gs, start, end, a, g);
      ghost var c := Closing(start, t, a0, kinc, end, a, b);
      ExplainedBy(p, lminpk, tight, c, g);
      ExplainedMore(p, lminpk, tight, gs, cs, g, c);
      gs, cs := gs + [g], cs + [c];
      if end >= |p.ic| {
        StageLast(p, lminpk, |gs| - 1, start, t, a0, end, a);
        return Done, gs, kinc, cs;
      }
      StageNext(p, lminpk, |gs| - 1, start, t, kinc, a0, end, a, nendb, b);
      NextEndBy(p, lminpk, t, nendb);
      MulSucc(|gs| - 1, lminpk);
      least := least + lminpk;
      start, a, t := end, b, nendb;
    }
  }

  lemma {:induction false} ExplainedNone(p: Problem, lminpk: nat, tight: bool, a: Cand)
    requires 1 <= lminpk
    ensures AllExplained(p, lminpk, tight, [], []) && Follow([], 0, a)
  {
  }

  lemma {:induction false} ExplainedBy(p: Problem, lminpk: nat, tight: bool, c: Closing, g: Grp)
    requires 1 <= lminpk && c.start <= c.end <= |p.ic| && c.start < c.t0 <= |p.ic|
    requires g.nov == c.end - c.start && g.lbit == c.a.width && CandOk(p, c.start, c.t0, c.a0)
    requires c.end < |p.ic| ==> ClosedWell(p, c.t0, c.kinc, c.a0, c.start, c.end, c.a, c.b)
    requires tight ==> GrewWell(p, lminpk, c.t0, c.end, c.a0.width)
    ensures Explained(p, lminpk, tight, c, g)
  {
    hide ClosedWell, GrewWell, CandOk;
  }

  lemma {:induction false} KeptOk(p: Problem, i: nat, j: nat, c: Cand)
    requires j <= |p.ic| && Kept(p, i, j, c)
    ensures CandOk(p, i, j, c)
  {
  }

  lemma {:induction false} TilesNone(p: Problem)
    ensures Tiles(p, [], 0) && TilesSharply(p, [], 0)
  {
  }

  lemma {:induction false} FirstEnd(p: Problem, lminpk: nat)
    requires 1 <= lminpk && 1 <= |p.ic|
    ensures NextEnd(p, lminpk, 0) == |p.ic| || NextEnd(p, lminpk, 0) == lminpk
  {
  }

  lemma {:induction false} NextEndBy(p: Problem, lminpk: nat, t: nat, nendb: nat)
    requires 1 <= lminpk && t < |p.ic| && NextEnd(p, lminpk, t) <= nendb <= |p.ic|
    ensures t < nendb && (nendb == |p.ic| || nendb >= t + lminpk)
  {
  }
}
