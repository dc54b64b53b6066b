/** `gb2_ornt`: putting a grid in row order from the bottom left, for all scanning modes. */
module ScanOrder {
  import opened Shifts

  /** Flag Table 3.4: -i first, +j first, columns rather than rows, alternating direction. */
  datatype Mode = Mode(idrct: bool, jdrct: bool, consec: bool, boustr: bool)

  function ModeOf(scanMode: int): (m: Mode)
  {
    Mode(scanMode / 128 % 2 == 1, scanMode / 64 % 2 == 1, scanMode / 32 % 2 == 1, scanMode / 16 % 2 == 1)
  }

  function Flip(flip: bool, i: int, n: int): (j: int)
    ensures 0 <= i < n ==> 0 <= j < n
  {
    if flip then n - 1 - i else i
  }

  predicate Odd(n: int)
  {
    n % 2 == 1
  }

  lemma {:induction false} OddNext(n: int)
    ensures Odd(n + 1) != Odd(n) && Odd(n - 1) != Odd(n) && !Odd(0) && (Odd(n - 1) <==> n % 2 == 0)
  {
  }

  /**
   * Column and row, counted from the bottom left, of point c of scan line r: a row, or a column
   * when `consec`; every other line runs backwards when `boustr`.
   */
  function Place(m: Mode, kx: nat, ky: nat, r: int, c: int): (xy: (int, int))
  {
    if m.consec then (Flip(m.idrct, r, kx), Flip(!m.jdrct != (m.boustr && Odd(r)), c, ky))
    else (Flip(m.idrct != (m.boustr && Odd(r)), c, kx), Flip(!m.jdrct, r, ky))
  }

  /** Scan line and point of the grid point in column x and row y. */
  function Scan(m: Mode, kx: nat, ky: nat, x: int, y: int): (rc: (int, int))
  {
    if m.consec then
      var r := Flip(m.idrct, x, kx);
      (r, Flip(!m.jdrct != (m.boustr && Odd(r)), y, ky))
    else
      var r := Flip(!m.jdrct, y, ky);
      (r, Flip(m.idrct != (m.boustr && Odd(r)), x, kx))
  }

  /** Points per scan line. */
  function Line(m: Mode, kx: nat, ky: nat): (n: nat)
  {
    if m.consec then ky else kx
  }

  lemma {:induction false} ScanPlace(m: Mode, kx: nat, ky: nat, r: int, c: int)
    requires if m.consec then 0 <= r < kx && 0 <= c < ky else 0 <= r < ky && 0 <= c < kx
    ensures var (x, y) := Place(m, kx, ky, r, c); 0 <= x < kx && 0 <= y < ky && Scan(m, kx, ky, x, y) == (r, c)
  {
  }

  lemma {:induction false} PlaceScan(m: Mode, kx: nat, ky: nat, x: int, y: int)
    requires 0 <= x < kx && 0 <= y < ky
    ensures var (r, c) := Scan(m, kx, ky, x, y);
      && Place(m, kx, ky, r, c) == (x, y)
      && (if m.consec then 0 <= r < kx && 0 <= c < ky else 0 <= r < ky && 0 <= c < kx)
  {
  }

  // ----- as indices of the two arrays

  lemma {:induction false} IndexBound(r: int, c: int, n: nat, lines: nat)
    requires 0 <= r < lines && 0 <= c < n
    ensures 0 <= r * n + c < lines * n
    ensures (r * n + c) / n == r && (r * n + c) % n == c
  {
    MulLe(0, r, n);
    MulLe(r + 1, lines, n);
    MulSucc(r, n);
    DivModUnique(r * n + c, n, r, c);
  }

  lemma {:induction false} IndexParts(k: nat, n: nat, lines: nat)
    requires n > 0 && k < lines * n
    ensures 0 <= k / n < lines && 0 <= k % n < n && k == k / n * n + k % n
  {
    MulLe(lines, if k / n >= lines then k / n else lines, n);
  }

  lemma {:induction false} Commute(a: int, b: int)
    ensures a * b == b * a
  {
  }

  /** Where output index k is found in the input. */
  function Source(m: Mode, kx: nat, ky: nat, k: nat): (n: int)
    requires kx > 0
  {
    var (r, c) := Scan(m, kx, ky, k % kx, k / kx);
    r * Line(m, kx, ky) + c
  }

  /** Where input index n goes in the output. */
  function Target(m: Mode, kx: nat, ky: nat, n: nat): (k: int)
    requires kx > 0 && ky > 0
  {
    var (x, y) := Place(m, kx, ky, n / Line(m, kx, ky), n % Line(m, kx, ky));
    y * kx + x
  }

  lemma {:induction false} TargetSource(m: Mode, kx: nat, ky: nat, k: nat)
    requires kx >= 1 && ky >= 1 && k < ky * kx
    ensures 0 <= Source(m, kx, ky, k) < ky * kx && Target(m, kx, ky, Source(m, kx, ky, k)) == k
  {
    hide Scan, Place;
    IndexParts(k, kx, ky);
    PlaceScan(m, kx, ky, k % kx, k / kx);
    var (r, c) := Scan(m, kx, ky, k % kx, k / kx);
    Commute(kx, ky);
    IndexBound(r, c, Line(m, kx, ky), if m.consec then kx else ky);
  }

  lemma {:induction false} SourceTarget(m: Mode, kx: nat, ky: nat, n: nat)
    requires kx >= 1 && ky >= 1 && n < ky * kx
    ensures 0 <= Target(m, kx, ky, n) < ky * kx && Source(m, kx, ky, Target(m, kx, ky, n)) == n
  {
    hide Scan, Place;
    Commute(kx, ky);
    if m.consec {
      IndexParts(n, ky, kx);
      PlacedBack(m, kx, ky, n / ky, n % ky);
    } else {
      IndexParts(n, kx, ky);
      PlacedBack(m, kx, ky, n / kx, n % kx);
    }
  }

  lemma {:induction false} PlacedBack(m: Mode, kx: nat, ky: nat, r: int, c: int)
    requires kx >= 1 && (if m.consec then 0 <= r < kx && 0 <= c < ky else 0 <= r < ky && 0 <= c < kx)
    ensures var (x, y) := Place(m, kx, ky, r, c);
      0 <= y * kx + x < ky * kx && Source(m, kx, ky, y * kx + x) == r * Line(m, kx, ky) + c
  {
    hide Scan, Place;
    ScanPlace(m, kx, ky, r, c);
    var (x, y) := Place(m, kx, ky, r, c);
    IndexBound(y, x, kx, ky);
  }

  // ----- permutations

  /** b[i] is a[f[i]], and f names every index once. */
  ghost predicate Rearranged<T>(a: seq<T>, b: seq<T>, f: seq<nat>)
  {
    && |a| == |b| == |f|
    && (forall i :: 0 <= i < |f| ==> f[i] < |a| && b[i] == a[f[i]])
    && (forall i, j :: 0 <= i < j < |f| ==> f[i] != f[j])
  }

  ghost function Without<T>(a: seq<T>, k: nat): (r: seq<T>)
    requires k < |a|
    ensures |r| == |a| - 1
  {
    a[..k] + a[k + 1..]
  }

  lemma {:induction false} WithoutMultiset<T>(a: seq<T>, k: nat)
    requires k < |a|
    ensures multiset(a) == multiset(Without(a, k)) + multiset{a[k]}
  {
    assert a == a[..k] + [a[k]] + a[k + 1..];
  }

  /** What is rearranged keeps its elements. */
  lemma {:induction false} RearrangedMultiset<T>(a: seq<T>, b: seq<T>, f: seq<nat>)
    requires Rearranged(a, b, f)
    ensures multiset(a) == multiset(b)
    decreases |a|
  {
    if a != [] {
      var n, k := |a| - 1, f[|a| - 1];
      var g := seq(n, i requires 0 <= i < n => if f[i] > k then f[i] - 1 else f[i]);
      var a' := Without(a, k);
      forall i | 0 <= i < n ensures g[i] < n && b[..n][i] == a'[g[i]] {
        assert f[i] != k;
      }
      RearrangedMultiset(a', b[..n], g);
      WithoutMultiset(a, k);
      assert b == b[..n] + [b[n]];
    }
  }

  // ----- the routine

  /** Row by row from the bottom, each output point is fetched from where it was scanned. */
  ghost predicate Oriented<T>(m: Mode, kx: nat, ky: nat, ingrid: seq<T>, fgrid: seq<T>, n: nat)
    requires kx >= 1 && ky >= 1 && |ingrid| == ky * kx && n <= |fgrid| && n <= ky * kx
  {
    forall k :: 0 <= k < n ==> 0 <= Source(m, kx, ky, k) < |ingrid| && fgrid[k] == ingrid[Source(m, kx, ky, k)]
  }

  /** The grid point that is written next. */
  lemma {:induction false} Next(m: Mode, kx: nat, ky: nat, x: nat, y: nat)
    requires x < kx && y < ky
    ensures y * kx + x < ky * kx && (y + 1) * kx == y * kx + kx
    ensures var (r, c) := Scan(m, kx, ky, x, y); Source(m, kx, ky, y * kx + x) == r * Line(m, kx, ky) + c
    ensures 0 <= Source(m, kx, ky, y * kx + x) < ky * kx
  {
    hide Scan, Place;
    IndexBound(y, x, kx, ky);
    TargetSource(m, kx, ky, y * kx + x);
  }

  lemma {:induction false} OneMore<T>(m: Mode, kx: nat, ky: nat, ingrid: seq<T>, before: seq<T>, after: seq<T>, k: nat)
    requires kx >= 1 && ky >= 1 && |ingrid| == ky * kx && k < ky * kx && |before| == |after| == ky * kx
    requires Oriented(m, kx, ky, ingrid, before, k) && forall i :: 0 <= i < k ==> after[i] == before[i]
    requires 0 <= Source(m, kx, ky, k) < |ingrid| && after[k] == ingrid[Source(m, kx, ky, k)]
    ensures Oriented(m, kx, ky, ingrid, after, k + 1)
  {
    hide Source;
  }

  /** Row y of the output lies in the input at stride * i + base, with i up or down through the columns. */
  ghost predicate Straight(m: Mode, kx: nat, ky: nat, y: nat, flip: bool, stride: nat, base: nat)
  {
    forall x :: 0 <= x < kx ==>
      Scan(m, kx, ky, x, y).0 * Line(m, kx, ky) + Scan(m, kx, ky, x, y).1 == stride * Flip(flip, x, kx) + base
  }

  /** One output row, from input points that lie evenly spaced. */
  method CopyRow(kx: nat, ky: nat, ibeg: int, iinc: int, stride: nat, base: nat, ingrid: seq<real>, fgrid: array<real>,
                 kcnt0: nat, ghost m: Mode, ghost y: nat)
    returns (kcnt: nat)
    requires kx >= 1 && y < ky && |ingrid| == ky * kx == fgrid.Length && kcnt0 == y * kx <= ky * kx
    requires (ibeg == 0 && iinc == 1) || (ibeg == kx - 1 && iinc == -1)
    requires Straight(m, kx, ky, y, iinc == -1, stride, base)
    requires Oriented(m, kx, ky, ingrid, fgrid[..], kcnt0)
    modifies fgrid
    ensures kcnt == (y + 1) * kx <= ky * kx && Oriented(m, kx, ky, ingrid, fgrid[..], kcnt)
  {
    hide Source, Scan, Place, Oriented;
    kcnt := kcnt0;
    var icnt := ibeg;
    ghost var x := 0;
    MulSucc(y, kx);
    MulLe(y + 1, ky, kx);
    while 0 <= icnt < kx
      invariant 0 <= x <= kx && icnt == Flip(iinc == -1, x, kx) && kcnt == kcnt0 + x
      invariant Oriented(m, kx, ky, ingrid, fgrid[..], kcnt)
      decreases kx - x
    {
      Next(m, kx, ky, x, y);
      assert Scan(m, kx, ky, x, y).0 * Line(m, kx, ky) + Scan(m, kx, ky, x, y).1 == stride * icnt + base;
      var idxarr := stride * icnt + base;
      ghost var before := fgrid[..];
      fgrid[kcnt] := ingrid[idxarr];
      OneMore(m, kx, ky, ingrid, before, fgrid[..], kcnt);
      kcnt := kcnt + 1;
      icnt := icnt + iinc;
      x := x + 1;
    }
  }

  lemma {:induction false} StraightColumns(m: Mode, kx: nat, ky: nat, y: nat)
    requires m.consec && !m.boustr && y < ky
    ensures Straight(m, kx, ky, y, m.idrct, ky, Flip(!m.jdrct, y, ky))
  {
    forall x | 0 <= x < kx
      ensures Scan(m, kx, ky, x, y).0 * Line(m, kx, ky) + Scan(m, kx, ky, x, y).1 ==
        ky * Flip(m.idrct, x, kx) + Flip(!m.jdrct, y, ky)
    {
      Commute(Flip(m.idrct, x, kx), ky);
    }
  }

  lemma {:induction false} StraightRows(m: Mode, kx: nat, ky: nat, y: nat)
    requires !m.consec && y < ky
    ensures var r := Flip(!m.jdrct, y, ky);
      0 <= kx * r && Straight(m, kx, ky, y, m.idrct != (m.boustr && Odd(r)), 1, kx * r)
  {
    var r := Flip(!m.jdrct, y, ky);
    Commute(r, kx);
    MulLe(0, r, kx);
    var flip := m.idrct != (m.boustr && Odd(r));
    forall x | 0 <= x < kx
      ensures Scan(m, kx, ky, x, y).0 * Line(m, kx, ky) + Scan(m, kx, ky, x, y).1 == 1 * Flip(flip, x, kx) + kx * r
    {
    }
  }

  /** Adjacent points in the same column, every column in the same direction. */
  method Columns(kx: nat, ky: nat, ibeg: int, iinc: int, jbeg: int, jinc: int, ingrid: seq<real>, fgrid: array<real>,
                 ghost m: Mode)
    requires kx >= 1 && ky >= 1 && |ingrid| == ky * kx == fgrid.Length && m.consec && !m.boustr
    requires ibeg == Flip(m.idrct, 0, kx) && iinc == (if m.idrct then -1 else 1)
    requires jbeg == Flip(!m.jdrct, 0, ky) && jinc == (if m.jdrct then 1 else -1)
    modifies fgrid
    ensures Oriented(m, kx, ky, ingrid, fgrid[..], ky * kx)
  {
    hide Source, Scan, Place, Straight, Oriented;
    var kcnt, jcnt := 0, jbeg;
    ghost var y := 0;
    Nothing(m, kx, ky, ingrid, fgrid[..]);
    while 0 <= jcnt < ky
      invariant 0 <= y <= ky && jcnt == Flip(!m.jdrct, y, ky) && kcnt == y * kx <= ky * kx
      invariant Oriented(m, kx, ky, ingrid, fgrid[..], kcnt)
      decreases ky - y
    {
      StraightColumns(m, kx, ky, y);
      kcnt := CopyRow(kx, ky, ibeg, iinc, ky, jcnt, ingrid, fgrid, kcnt, m, y);
      jcnt := jcnt + jinc;
      y := y + 1;
    }
  }

  lemma {:induction false} Nothing<T>(m: Mode, kx: nat, ky: nat, ingrid: seq<T>, fgrid: seq<T>)
    requires kx >= 1 && ky >= 1 && |ingrid| == ky * kx == |fgrid|
    ensures Oriented(m, kx, ky, ingrid, fgrid, 0) && 0 * kx == 0 <= ky * kx
  {
    MulLe(0, ky, kx);
  }

  /** Adjacent points in the same row; with `boustr`, every other row runs backwards. */
  method Rows(kx: nat, ky: nat, ibeg0: int, iinc0: int, jbeg: int, jinc: int, ingrid: seq<real>, fgrid: array<real>,
              m: Mode)
    requires kx >= 1 && ky >= 1 && |ingrid| == ky * kx == fgrid.Length && !m.consec
    requires ibeg0 == Flip(m.idrct, 0, kx) && iinc0 == (if m.idrct then -1 else 1)
    requires jbeg == Flip(!m.jdrct, 0, ky) && jinc == (if m.jdrct then 1 else -1)
    modifies fgrid
    ensures Oriented(m, kx, ky, ingrid, fgrid[..], ky * kx)
  {
    hide Source, Scan, Place, Straight, Oriented, Odd;
    var kcnt, jcnt, ibeg, iinc := 0, jbeg, ibeg0, iinc0;
    OddNext(ky);
    if m.boustr && !m.jdrct && ky % 2 == 0 {
      ibeg := if m.idrct then 0 else kx - 1;
      iinc := if m.idrct then 1 else -1;
    }
    ghost var y := 0;
    Nothing(m, kx, ky, ingrid, fgrid[..]);
    while 0 <= jcnt < ky
      invariant 0 <= y <= ky && jcnt == Flip(!m.jdrct, y, ky) && kcnt == y * kx <= ky * kx
      invariant Oriented(m, kx, ky, ingrid, fgrid[..], kcnt)
      invariant iinc == if m.idrct != (m.boustr && Odd(jcnt)) then -1 else 1
      invariant ibeg == if iinc == 1 then 0 else kx - 1
      decreases ky - y
    {
      StraightRows(m, kx, ky, y);
      OddNext(jcnt);
      kcnt := CopyRow(kx, ky, ibeg, iinc, 1, kx * jcnt, ingrid, fgrid, kcnt, m, y);
      if m.boustr {
        ibeg := if ibeg != 0 then 0 else kx - 1;
        iinc := if iinc != 1 then 1 else -1;
      }
      jcnt := jcnt + jinc;
      y := y + 1;
    }
  }

  /** One output row, from columns that alternate in direction. */
  method CopyToggled(kx: nat, ky: nat, ibeg: int, iinc: int, jcnt: int, itmp0: int, ingrid: seq<real>,
                     fgrid: array<real>, kcnt0: nat, ghost m: Mode, ghost y: nat)
    returns (kcnt: nat)
    requires kx >= 1 && y < ky && |ingrid| == ky * kx == fgrid.Length && kcnt0 == y * kx <= ky * kx && m.consec
    requires m.boustr
    requires ibeg == Flip(m.idrct, 0, kx) && iinc == (if m.idrct then -1 else 1) && jcnt == Flip(!m.jdrct, y, ky)
    requires itmp0 == Flip(Odd(ibeg), jcnt, ky)
    requires Oriented(m, kx, ky, ingrid, fgrid[..], kcnt0)
    modifies fgrid
    ensures kcnt == (y + 1) * kx <= ky * kx && Oriented(m, kx, ky, ingrid, fgrid[..], kcnt)
  {
    hide Source, Scan, Place, Oriented, Odd;
    kcnt := kcnt0;
    var icnt, itmp := ibeg, itmp0;
    ghost var x := 0;
    MulSucc(y, kx);
    MulLe(y + 1, ky, kx);
    while 0 <= icnt < kx
      invariant 0 <= x <= kx && icnt == Flip(m.idrct, x, kx) && kcnt == kcnt0 + x && itmp == Flip(Odd(icnt), jcnt, ky)
      invariant Oriented(m, kx, ky, ingrid, fgrid[..], kcnt)
      decreases kx - x
    {
      Next(m, kx, ky, x, y);
      Toggled(m, kx, ky, x, y);
      OddNext(icnt);
      var idxarr := ky * icnt + itmp;
      ghost var before := fgrid[..];
      fgrid[kcnt] := ingrid[idxarr];
      OneMore(m, kx, ky, ingrid, before, fgrid[..], kcnt);
      itmp := if itmp != jcnt then jcnt else ky - jcnt - 1;
      kcnt := kcnt + 1;
      icnt := icnt + iinc;
      x := x + 1;
    }
  }

  lemma {:induction false} Toggled(m: Mode, kx: nat, ky: nat, x: nat, y: nat)
    requires x < kx && y < ky && m.consec && m.boustr
    ensures var icnt, jcnt := Flip(m.idrct, x, kx), Flip(!m.jdrct, y, ky);
      Scan(m, kx, ky, x, y).0 * Line(m, kx, ky) + Scan(m, kx, ky, x, y).1 == ky * icnt + Flip(Odd(icnt), jcnt, ky)
  {
    Commute(Flip(m.idrct, x, kx), ky);
  }

  /** Adjacent points in the same column, every other column backwards. */
  method ToggledColumns(kx: nat, ky: nat, ibeg: int, iinc: int, jbeg: int, jinc: int, ingrid: seq<real>,
                        fgrid: array<real>, m: Mode)
    requires kx >= 1 && ky >= 1 && |ingrid| == ky * kx == fgrid.Length && m.consec && m.boustr
    requires ibeg == Flip(m.idrct, 0, kx) && iinc == (if m.idrct then -1 else 1)
    requires jbeg == Flip(!m.jdrct, 0, ky) && jinc == (if m.jdrct then 1 else -1)
    modifies fgrid
    ensures Oriented(m, kx, ky, ingrid, fgrid[..], ky * kx)
  {
    hide Source, Scan, Place, Oriented, Odd;
    var kcnt, jcnt := 0, jbeg;
    OddNext(kx);
    ghost var y := 0;
    Nothing(m, kx, ky, ingrid, fgrid[..]);
    while 0 <= jcnt < ky
      invariant 0 <= y <= ky && jcnt == Flip(!m.jdrct, y, ky) && kcnt == y * kx <= ky * kx
      invariant Oriented(m, kx, ky, ingrid, fgrid[..], kcnt)
      decreases ky - y
    {
      var itmp := jcnt;
      if m.idrct && kx % 2 == 0 { itmp := ky - jcnt - 1; }
      kcnt := CopyToggled(kx, ky, ibeg, iinc, jcnt, itmp, ingrid, fgrid, kcnt, m, y);
      jcnt := jcnt + jinc;
      y := y + 1;
    }
  }

  /**
   * `gb2_ornt`: output point (x, y), row by row from the bottom left, is the input point that the
   * scanning mode places there; nothing is lost or repeated.
   */
  method Orient(kx: nat, ky: nat, scanMode: int, ingrid: seq<real>, fgrid: array<real>)
    requires kx >= 1 && ky >= 1 && |ingrid| == ky * kx == fgrid.Length
    modifies fgrid
    ensures Oriented(ModeOf(scanMode), kx, ky, ingrid, fgrid[..], ky * kx)
    ensures multiset(fgrid[..]) == multiset(ingrid)
  {
    hide Source, Scan, Place, Oriented, ModeOf;
    var m := ModeOf(scanMode);
    var ibeg, iinc := if m.idrct then kx - 1 else 0, if m.idrct then -1 else 1;
    var jbeg, jinc := if m.jdrct then 0 else ky - 1, if m.jdrct then 1 else -1;
    if m.consec && !m.boustr {
      Columns(kx, ky, ibeg, iinc, jbeg, jinc, ingrid, fgrid, m);
    } else if !m.consec {
      Rows(kx, ky, ibeg, iinc, jbeg, jinc, ingrid, fgrid, m);
    } else {
      ToggledColumns(kx, ky, ibeg, iinc, jbeg, jinc, ingrid, fgrid, m);
    }
    OrientedIsPermutation(m, kx, ky, ingrid, fgrid[..]);
  }

  lemma {:induction false} OrientedIsPermutation(m: Mode, kx: nat, ky: nat, ingrid: seq<real>, fgrid: seq<real>)
    requires kx >= 1 && ky >= 1 && |ingrid| == ky * kx == |fgrid| && Oriented(m, kx, ky, ingrid, fgrid, ky * kx)
    ensures multiset(fgrid) == multiset(ingrid)
  {
    hide Source, Target;
    var n := ky * kx;
    var f := Sources(m, kx, ky, n);
    forall i, j | 0 <= i < j < n ensures f[i] != f[j] {
      TargetSource(m, kx, ky, i);
      TargetSource(m, kx, ky, j);
    }
    RearrangedMultiset(ingrid, fgrid, f);
  }

  ghost function Sources(m: Mode, kx: nat, ky: nat, n: nat): (f: seq<nat>)
    requires kx >= 1 && ky >= 1 && n <= ky * kx
    ensures |f| == n && forall k :: 0 <= k < n ==> f[k] == Source(m, kx, ky, k)
  {
    if n == 0 then [] else
    TargetSource(m, kx, ky, n - 1);
    Sources(m, kx, ky, n - 1) + [Source(m, kx, ky, n - 1)]
  }

  /** Every input point ends up where Flag Table 3.4 places it. */
  lemma {:induction false} InputIsPlaced(m: Mode, kx: nat, ky: nat, ingrid: seq<real>, fgrid: seq<real>, n: nat)
    requires kx >= 1 && ky >= 1 && |ingrid| == ky * kx == |fgrid| && Oriented(m, kx, ky, ingrid, fgrid, ky * kx)
    requires n < ky * kx
    ensures var (x, y) := Place(m, kx, ky, n / Line(m, kx, ky), n % Line(m, kx, ky));
      0 <= y * kx + x < |fgrid| && fgrid[y * kx + x] == ingrid[n]
  {
    hide Place, Scan, Source;
    SourceTarget(m, kx, ky, n);
  }
}
