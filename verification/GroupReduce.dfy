/**
 * `g2_reduce`: splitting groups that are long compared to the others, so that fewer bits hold the
 * group lengths.  Rows are the descriptors of the groups; a row's nov counts its points less novref.
 */
module GroupReduce {
  import opened Shifts
  import opened Extremes
  import opened GroupSplit

  // ----- how many pieces

  /** Extra groups needed so that n, spread over them, fits j bits. */
  function Boxes(n: nat, j: nat): (k: nat)
    requires j >= 1
  {
    if n < Pow2(j) then 0 else (n - 1) / (Pow2(j) - 1)
  }

  /** It is the least number: n fits k + 1 groups of at most 2^j - 1, and not k groups. */
  lemma {:induction false} BoxesLeast(n: nat, j: nat)
    requires j >= 1
    ensures n <= (Boxes(n, j) + 1) * (Pow2(j) - 1)
    ensures Boxes(n, j) > 0 ==> n > Boxes(n, j) * (Pow2(j) - 1)
  {
    assert Pow2(j) == 2 * Pow2(j - 1);
    var d := Pow2(j) - 1;
    if n >= Pow2(j) {
      assert n - 1 == (n - 1) / d * d + (n - 1) % d;
      MulSucc(Boxes(n, j), d);
    }
  }

  function TotalBoxes(rows: seq<Grp>, j: nat): (k: nat)
    requires j >= 1
  {
    if rows == [] then 0 else TotalBoxes(rows[..|rows| - 1], j) + Boxes(rows[|rows| - 1].nov, j)
  }

  /** Bits for all descriptors when group lengths take j bits. */
  function Cost(rows: seq<Grp>, ibit: nat, jbit: nat, j: nat): (c: int)
    requires j >= 1
  {
    (ibit + jbit + j) * (|rows| + TotalBoxes(rows, j))
  }

  /** The number of pieces m is found at the first guess: the retry with m + 1 is never needed. */
  method CountBoxes(n: nat, j: nat) returns (k: nat)
    requires j >= 1
    ensures k == Boxes(n, j)
  {
    if n < Pow2(j) {
      return 0;
    }
    assert Pow2(j) == 2 * Pow2(j - 1);
    var m := (n - 1) / (Pow2(j) - 1) + 1;
    FirstGuess(n, Pow2(j), m);
    assert (n + m - 1) / m < Pow2(j);
    k := m - 1;
  }

  lemma {:induction false} FirstGuess(n: nat, w: nat, m: nat)
    requires n >= w >= 2 && m == (n - 1) / (w - 1) + 1
    ensures m >= 1 && (n + m - 1) / m < w
  {
    var d, q := w - 1, (n - 1) / (w - 1);
    assert n - 1 == q * d + (n - 1) % d;
    MulSucc(q, d);
    assert n - 1 < m * d;
    assert m * w == m * d + m;
    DivLess(n + m - 1, m, w);
  }

  lemma {:induction false} DivLess(a: nat, m: nat, w: nat)
    requires m >= 1 && a < m * w
    ensures a / m < w
  {
    assert a == a / m * m + a % m;
    if a / m >= w { MulLe(w, a / m, m); }
  }

  function BoxList(rows: seq<Grp>, j: nat): (ks: seq<nat>)
    requires j >= 1
    ensures |ks| == |rows|
  {
    seq(|rows|, l requires 0 <= l < |rows| => Boxes(rows[l].nov, j))
  }

  lemma {:induction false} TotalIsSum(rows: seq<Grp>, j: nat)
    requires j >= 1
    ensures TotalBoxes(rows, j) == Sum(BoxList(rows, j))
  {
    if rows != [] {
      var k := |rows| - 1;
      TotalIsSum(rows[..k], j);
      assert BoxList(rows, j)[..k] == BoxList(rows[..k], j) && BoxList(rows, j)[..k + 1] == BoxList(rows, j);
      SumSnoc(BoxList(rows, j), k);
    }
  }

  /** The pieces of every row for lengths of j bits, with their total. */
  method AllBoxes(rows: array<Grp>, lx: nat, j: nat) returns (newbox: seq<nat>, newboxt: nat)
    requires lx <= rows.Length && j >= 1
    ensures newbox == BoxList(rows[..lx], j) && newboxt == TotalBoxes(rows[..lx], j)
  {
    newbox, newboxt := [], 0;
    for l := 0 to lx
      invariant newbox == BoxList(rows[..l], j) && newboxt == TotalBoxes(rows[..l], j)
    {
      var k := CountBoxes(rows[l].nov, j);
      newbox, newboxt := newbox + [k], newboxt + k;
      assert rows[..l + 1][..l] == rows[..l];
    }
  }

  /** Bits for all descriptors when group lengths take j bits: the rows as they are, or split to j < kbit. */
  ghost function BitsAt(rows: seq<Grp>, ibit: nat, jbit: nat, kbit: nat, j: nat): (c: int)
    requires 1 <= j <= kbit
  {
    if j == kbit then (ibit + jbit + kbit) * |rows| else Cost(rows, ibit, jbit, j)
  }

  /** Every bit taken off the lengths, from kbit down to j, saves something. */
  ghost predicate Falls(rows: seq<Grp>, ibit: nat, jbit: nat, kbit: nat, j: nat)
  {
    hide BitsAt;
    1 <= j && forall i :: j <= i < kbit ==> BitsAt(rows, ibit, jbit, kbit, i) < BitsAt(rows, ibit, jbit, kbit, i + 1)
  }

  /** The first width from kbit down after which one bit less does not save anything. */
  ghost predicate Bottom(rows: seq<Grp>, ibit: nat, jbit: nat, kbit: nat, j: nat)
  {
    hide BitsAt, Falls;
    && 3 <= j <= kbit && Falls(rows, ibit, jbit, kbit, j)
    && BitsAt(rows, ibit, jbit, kbit, j - 1) >= BitsAt(rows, ibit, jbit, kbit, j)
  }

  /** There is at most one such width, and it is there unless the bits fall all the way to 2. */
  lemma {:induction false} BottomUnique(rows: seq<Grp>, ibit: nat, jbit: nat, kbit: nat, j: nat, k: nat)
    requires Bottom(rows, ibit, jbit, kbit, j)
    ensures Bottom(rows, ibit, jbit, kbit, k) ==> k == j
    ensures !Falls(rows, ibit, jbit, kbit, 2)
  {
    hide BitsAt;
  }

  lemma {:induction false} FallsMore(rows: seq<Grp>, ibit: nat, jbit: nat, kbit: nat, j: nat)
    requires 1 <= j < kbit && Falls(rows, ibit, jbit, kbit, j + 1)
    requires BitsAt(rows, ibit, jbit, kbit, j) < BitsAt(rows, ibit, jbit, kbit, j + 1)
    ensures Falls(rows, ibit, jbit, kbit, j)
  {
    hide BitsAt;
  }

  lemma {:induction false} FallsNowhere(rows: seq<Grp>, ibit: nat, jbit: nat, kbit: nat)
    ensures 1 <= kbit ==> Falls(rows, ibit, jbit, kbit, kbit)
    ensures kbit <= 2 ==> Falls(rows, ibit, jbit, kbit, 2)
  {
    hide BitsAt;
  }

  /** The width of group lengths to use: kbit - or 0, the search having run out - means no split. */
  method Search(rows: array<Grp>, lx: nat, ibit: nat, jbit: nat, kbit: nat)
    returns (jj: nat, newboxp: seq<nat>, newboxtp: nat, cost: int)
    requires 1 <= lx <= rows.Length && kbit <= 30
    ensures jj == 0 || jj == kbit || 2 <= jj < kbit
    ensures jj == 0 <==> Falls(rows[..lx], ibit, jbit, kbit, 2)
    ensures jj > 0 ==> Bottom(rows[..lx], ibit, jbit, kbit, jj)
    ensures jj > 0 ==> cost == BitsAt(rows[..lx], ibit, jbit, kbit, jj)
    ensures 2 <= jj < kbit ==> newboxp == BoxList(rows[..lx], jj) && newboxtp == TotalBoxes(rows[..lx], jj)
    ensures 2 <= jj < kbit ==> cost == Cost(rows[..lx], ibit, jbit, jj)
    ensures jj == kbit > 0 ==> cost == (ibit + jbit + kbit) * lx
  {
    hide BoxList, TotalBoxes, Falls;
    FallsNowhere(rows[..lx], ibit, jbit, kbit);
    newboxp, newboxtp := [], 0;
    cost := (ibit + jbit + kbit) * lx;
    var j := kbit - 1;
    while j >= 2
      invariant j < kbit
      invariant 2 <= j + 1 ==> Falls(rows[..lx], ibit, jbit, kbit, j + 1)
      invariant if kbit <= 2 then j + 1 == kbit else 2 <= j + 1
      invariant j + 1 == kbit ==> cost == (ibit + jbit + kbit) * lx
      invariant 2 <= j + 1 < kbit ==> newboxp == BoxList(rows[..lx], j + 1) && newboxtp == TotalBoxes(rows[..lx], j + 1)
      invariant 2 <= j + 1 < kbit ==> cost == Cost(rows[..lx], ibit, jbit, j + 1)
    {
      var newbox, newboxt := AllBoxes(rows, lx, j);
      var c := (ibit + jbit) * (lx + newboxt) + j * (lx + newboxt);
      assert c == (ibit + jbit + j) * (lx + newboxt);
      if c >= cost {
        BottomUnique(rows[..lx], ibit, jbit, kbit, j + 1, j + 1);
        return j + 1, newboxp, newboxtp, cost;
      }
      FallsMore(rows[..lx], ibit, jbit, kbit, j);
      newboxp, newboxtp, cost := newbox, newboxt, c;
      j := j - 1;
    }
    jj := 0;
  }

  // ----- the pieces of one row

  /** Points (less novref) for each piece but the first. */
  function Movmin(n: nat, k: nat, top: nat, novref: nat): (m: int)
  {
    if k > 0 && k * (top + novref) > n then Truncated(n - k * novref, k) else top
  }

  /** The check before a row is cut into k + 1 pieces. */
  predicate Sound(n: nat, k: nat, top: nat, novref: nat)
  {
    var m := Movmin(n, k, top, novref);
    k > 0 ==> (m + novref) * k <= n && (m + novref) * (k + 1) >= n + novref
  }

  /** What is left for the first piece. */
  function Leftmost(n: nat, k: nat, top: nat, novref: nat): (m: int)
  {
    n - k * (Movmin(n, k, top, novref) + novref)
  }

  /** A row that passes the check is cut into pieces of 0 to `top` points, less novref each. */
  lemma {:induction false} SoundPieces(n: nat, k: nat, top: nat, novref: nat)
    requires Sound(n, k, top, novref) && (k == 0 ==> n <= top)
    ensures var m := Movmin(n, k, top, novref); 0 <= Leftmost(n, k, top, novref) <= m <= top
  {
    var m := Movmin(n, k, top, novref);
    if k > 0 {
      hide Movmin, Truncated;
      MulSucc(k, m + novref);
      assert k * (m + novref) == (m + novref) * k;
      assert 0 <= Leftmost(n, k, top, novref) <= m;
      if m > top {
        MulLe(top + novref, m + novref, k);
        MovminTop(n, k, top, novref);
      }
    }
  }

  /** The check passes exactly when full pieces leave something, or when even ones leave no more than one of them. */
  lemma {:induction false} SoundExactly(n: nat, k: nat, top: nat, novref: nat)
    requires k > 0 && n <= (k + 1) * top
    ensures Sound(n, k, top, novref) <==> k * (top + novref) <= n || n / k >= n % k + novref
  {
    hide Movmin, Truncated;
    var q, r := n / k, n % k;
    assert n == k * q + r && 0 <= r < k;
    if k * (top + novref) <= n {
      FullPieces(n, k, top, novref);
    } else {
      EvenPieces(n, k, top, novref, q, r);
    }
  }

  lemma {:induction false} FullPieces(n: nat, k: nat, top: nat, novref: nat)
    requires k > 0 && n <= (k + 1) * top && k * (top + novref) <= n
    ensures Sound(n, k, top, novref)
  {
    assert (top + novref) * (k + 1) == (k + 1) * top + (k + 1) * novref;
    MulLe(1, k + 1, novref);
  }

  lemma {:induction false} EvenPieces(n: nat, k: nat, top: nat, novref: nat, q: nat, r: nat)
    requires k > 0 && k * (top + novref) > n && n == k * q + r && r < k
    ensures Sound(n, k, top, novref) <==> q >= r + novref
  {
    var m := Movmin(n, k, top, novref);
    assert m == Truncated(n - k * novref, k);
    Evenly(n, k, novref, q, r, m);
    hide Movmin, Truncated;
    assert (m + novref) * (k + 1) == (m + novref) * k + (m + novref);
    if m + novref == q {
      assert (m + novref) * k == n - r;
    } else {
      MulLe(q + 1, m + novref, k);
      assert (q + 1) * k == n - r + k;
    }
  }

  /** The pieces are rounded towards the reference: down when they are longer than it. */
  lemma {:induction false} Evenly(n: nat, k: nat, novref: nat, q: nat, r: nat, m: int)
    requires k > 0 && n == k * q + r && r < k && m == Truncated(n - k * novref, k)
    ensures m + novref == q || (m + novref == q + 1 && r > 0 && q < novref)
  {
    hide Truncated;
    var a: int, d: int := n - k * novref, q - novref - m;
    assert a - k * m == k * d + r;
    if d >= 1 { MulLe(1, d, k); }
    if d <= -2 { MulLe(d, -2, k); }
    if d == -1 {
      assert k * d + k == 0;
      if q >= novref { MulLe(novref, q, k); }
    }
  }

  lemma {:induction false} MovminTop(n: nat, k: nat, top: nat, novref: nat)
    requires k > 0 && Movmin(n, k, top, novref) != top
    ensures (top + novref) * k > n
  {
  }

  // ----- cutting in place, from the back

  ghost predicate Cuttable(r: Grp, k: nat, top: nat, novref: nat)
  {
    Sound(r.nov, k, top, novref) && (k == 0 ==> r.nov <= top)
  }

  /** The pieces of a row, in the order of the points. */
  ghost function Pieces(r: Grp, k: nat, top: nat, novref: nat): (ps: seq<Grp>)
    requires Cuttable(r, k, top, novref)
    ensures |ps| == k + 1
  {
    SoundPieces(r.nov, k, top, novref);
    [r.(nov := Leftmost(r.nov, k, top, novref))] + seq(k, _ => r.(nov := Movmin(r.nov, k, top, novref)))
  }

  ghost function Cut(rows: seq<Grp>, ks: seq<nat>, top: nat, novref: nat): (ps: seq<Grp>)
    requires |ks| == |rows|
    requires forall l :: 0 <= l < |rows| ==> Cuttable(rows[l], ks[l], top, novref)
  {
    if rows == [] then [] else Pieces(rows[0], ks[0], top, novref) + Cut(rows[1..], ks[1..], top, novref)
  }

  ghost function Times(k: nat, step: nat): (n: nat)
  {
    if k == 0 then 0 else Times(k - 1, step) + step
  }

  lemma {:induction false} TimesIsMul(k: nat, step: nat)
    ensures Times(k, step) == k * step
  {
    if k > 0 {
      TimesIsMul(k - 1, step);
      MulSucc(k - 1, step);
    }
  }

  lemma {:induction false} PiecesFrom(r: Grp, k: nat, top: nat, novref: nat, ps: seq<Grp>)
    requires Cuttable(r, k, top, novref) && |ps| == k + 1
    requires ps[0] == r.(nov := Leftmost(r.nov, k, top, novref))
    requires forall x :: 1 <= x <= k ==> ps[x] == r.(nov := Movmin(r.nov, k, top, novref))
    ensures ps == Pieces(r, k, top, novref)
  {
    hide Movmin, Leftmost, Sound, Pow2;
  }

  /** The inner loop: k slots of movmin points, then what is left, filled from the back. */
  method FillSlots(rows: array<Grp>, l: nat, slot: nat, k: nat, movmin: nat, novref: nat, ghost first: nat)
    requires l + k + 1 <= slot <= rows.Length && first <= movmin
    requires rows[l].nov == first + Times(k, movmin + novref)
    modifies rows
    ensures rows[slot - k - 1] == old(rows[l]).(nov := first)
    ensures forall x :: slot - k <= x < slot ==> rows[x] == old(rows[l]).(nov := movmin)
    ensures forall x :: 0 <= x < l || slot <= x < rows.Length ==> rows[x] == old(rows[x])
  {
    ghost var r := rows[l];
    var left := rows[l].nov;
    for i := 0 to k
      invariant rows[l] == r && left == first + Times(k - i, movmin + novref)
      invariant forall x :: slot - i <= x < slot ==> rows[x] == r.(nov := movmin)
      invariant forall x :: 0 <= x < l || slot <= x < rows.Length ==> rows[x] == old(rows[x])
    {
      var move := if movmin < left then movmin else left;
      rows[slot - 1 - i] := rows[l].(nov := move);
      left := left - (move + novref);
    }
    var move := if movmin < left then movmin else left;
    rows[slot - 1 - k] := rows[l].(nov := move);
  }

  /** Row l is cut into the k + 1 slots that end before `slot`; the unread rows before l stay. */
  method CutRow(rows: array<Grp>, l: nat, slot: nat, k: nat, top: nat, novref: nat, ghost end: nat)
    requires l + k + 1 <= slot <= end <= rows.Length && Cuttable(rows[l], k, top, novref)
    modifies rows
    ensures rows[slot - k - 1..end] == Pieces(old(rows[l]), k, top, novref) + old(rows[slot..end])
    ensures rows[..l] == old(rows[..l])
  {
    ghost var r, first := rows[l], Leftmost(rows[l].nov, k, top, novref);
    var movmin := Movmin(rows[l].nov, k, top, novref);
    SoundPieces(r.nov, k, top, novref);
    TimesIsMul(k, movmin + novref);
    hide Movmin, Leftmost, Sound, Pieces, Cuttable, Times;
    FillSlots(rows, l, slot, k, movmin, novref, first);
    PiecesFrom(r, k, top, novref, rows[slot - k - 1..slot]);
    Joined(rows[..], slot - k - 1, slot, end);
  }

  lemma {:induction false} CutCons(rows: seq<Grp>, ks: seq<nat>, top: nat, novref: nat, l: nat)
    requires |ks| == |rows| && l < |rows|
    requires forall x :: l <= x < |rows| ==> Cuttable(rows[x], ks[x], top, novref)
    ensures Cut(rows[l..], ks[l..], top, novref)
         == Pieces(rows[l], ks[l], top, novref) + Cut(rows[l + 1..], ks[l + 1..], top, novref)
  {
    hide Cuttable, Pieces;
    assert rows[l..][1..] == rows[l + 1..] && ks[l..][1..] == ks[l + 1..];
  }

  /** All rows, the last one first; 714 when some row does not pass the check. */
  method Expand(rows: array<Grp>, lx: nat, ks: seq<nat>, lxn0: nat, top: nat, novref: nat) returns (ier: int)
    requires lx == |ks| && lxn0 == lx + Sum(ks) && lxn0 <= rows.Length
    requires forall l :: 0 <= l < lx && ks[l] == 0 ==> rows[l].nov <= top
    modifies rows
    ensures ier == 0 || ier == 714
    ensures ier == 0 <==> forall l :: 0 <= l < lx ==> Cuttable(old(rows[..lx])[l], ks[l], top, novref)
    ensures ier == 0 ==> rows[..lxn0] == Cut(old(rows[..lx]), ks, top, novref)
  {
    hide Cuttable, Sound, Pieces, Movmin, Leftmost, Cut, Sum;
    ghost var r0 := rows[..lx];
    assert ks[..lx] == ks;
    CutNone(r0, ks, top, novref);
    var l, lxn := lx, lxn0;
    while l > 0
      invariant 0 <= l <= lx && lxn == l + Sum(ks[..l]) <= lxn0 <= rows.Length
      invariant rows[..l] == r0[..l]
      invariant forall x :: l <= x < lx ==> Cuttable(r0[x], ks[x], top, novref)
      invariant rows[lxn..lxn0] == Cut(r0[l..], ks[l..], top, novref)
    {
      l := l - 1;
      assert rows[l] == r0[l];
      SumSnoc(ks, l);
      if !Sound(rows[l].nov, ks[l], top, novref) {
        Failed(r0[l], ks[l], top, novref);
        return 714;
      }
      Passed(rows[l], ks[l], top, novref);
      CutRow(rows, l, lxn, ks[l], top, novref, lxn0);
      CutCons(r0, ks, top, novref, l);
      lxn := lxn - ks[l] - 1;
    }
    SumNone(ks);
    assert r0[0..] == r0 && ks[0..] == ks;
    ier := 0;
  }

  lemma {:induction false} Joined<T>(s: seq<T>, i: nat, j: nat, k: nat)
    requires i <= j <= k <= |s|
    ensures s[i..k] == s[i..j] + s[j..k]
  {
  }

  lemma {:induction false} SumNone(ks: seq<nat>)
    ensures Sum(ks[..0]) == 0
  {
  }

  lemma {:induction false} CutNone(rows: seq<Grp>, ks: seq<nat>, top: nat, novref: nat)
    requires |rows| == |ks|
    ensures Cut(rows[|rows|..], ks[|ks|..], top, novref) == []
  {
  }

  lemma {:induction false} Passed(r: Grp, k: nat, top: nat, novref: nat)
    requires Sound(r.nov, k, top, novref) && (k == 0 ==> r.nov <= top)
    ensures Cuttable(r, k, top, novref)
  {
  }

  lemma {:induction false} Failed(r: Grp, k: nat, top: nat, novref: nat)
    requires !Sound(r.nov, k, top, novref)
    ensures !Cuttable(r, k, top, novref)
  {
  }

  /** Every piece fits the new width. */
  lemma {:induction false} CutFits(rows: seq<Grp>, ks: seq<nat>, top: nat, novref: nat)
    requires |ks| == |rows| && forall l :: 0 <= l < |rows| ==> Cuttable(rows[l], ks[l], top, novref)
    ensures forall i :: 0 <= i < |Cut(rows, ks, top, novref)| ==> Cut(rows, ks, top, novref)[i].nov <= top
    ensures |Cut(rows, ks, top, novref)| == |rows| + Sum(ks)
  {
    if rows != [] {
      CutFits(rows[1..], ks[1..], top, novref);
      SoundPieces(rows[0].nov, ks[0], top, novref);
    }
  }

  /** The rows after a split, and what the split saves. */
  ghost predicate IsSplit(rows: seq<Grp>, rows': seq<Grp>, ibit: nat, jbit: nat, kbit: nat, kbit': nat, novref: nat)
  {
    && 2 <= kbit' < kbit
    && (forall l :: 0 <= l < |rows| ==> Cuttable(rows[l], BoxList(rows, kbit')[l], Pow2(kbit') - 1, novref))
    && rows' == Cut(rows, BoxList(rows, kbit'), Pow2(kbit') - 1, novref)
    && 100 * ((ibit + jbit + kbit) * |rows| - (ibit + jbit + kbit') * |rows'|) >= 2 * ((ibit + jbit + kbit) * |rows|)
  }

  /** The rows cut into pieces of j bits. */
  ghost function CutTo(rows: seq<Grp>, j: nat, novref: nat): (ps: seq<Grp>)
    requires 1 <= j && AllCuttable(rows, j, novref)
  {
    Cut(rows, BoxList(rows, j), Pow2(j) - 1, novref)
  }

  lemma {:induction false} AllCuttableIs(rows: seq<Grp>, ks: seq<nat>, j: nat, novref: nat)
    requires 1 <= j && ks == BoxList(rows, j)
    ensures AllCuttable(rows, j, novref) <==>
      forall l :: 0 <= l < |rows| ==> Cuttable(rows[l], ks[l], Pow2(j) - 1, novref)
    ensures AllCuttable(rows, j, novref) ==> CutTo(rows, j, novref) == Cut(rows, ks, Pow2(j) - 1, novref)
  {
    hide Cuttable, BoxList;
  }

  /** Going from kbit to j bits saves 2% or more. */
  ghost predicate Worthwhile(rows: seq<Grp>, ibit: nat, jbit: nat, kbit: nat, j: nat)
    requires 1 <= j <= kbit
  {
    hide BitsAt;
    var whole := BitsAt(rows, ibit, jbit, kbit, kbit);
    100 * (whole - BitsAt(rows, ibit, jbit, kbit, j)) >= 2 * whole
  }

  /** Every row can be cut into its pieces of j bits. */
  ghost predicate AllCuttable(rows: seq<Grp>, j: nat, novref: nat)
    requires 1 <= j
  {
    hide Cuttable, BoxList;
    forall l :: 0 <= l < |rows| ==> Cuttable(rows[l], BoxList(rows, j)[l], Pow2(j) - 1, novref)
  }

  /** What becomes of the rows r0 when the bits stop falling at j: kept, given up, or split to j bits. */
  ghost predicate DecidedAt(r0: seq<Grp>, r1: seq<Grp>, room: nat, ier: int, ibit: nat, jbit: nat, kbit0: nat,
                            kbit: nat, novref: nat, j: nat)
  {
    hide Worthwhile, AllCuttable, IsSplit, TotalBoxes;
    && 1 <= j <= kbit0
    && if !Worthwhile(r0, ibit, jbit, kbit0, j) then ier == 0 && kbit == kbit0 && r1 == r0
       else if |r0| + TotalBoxes(r0, j) > room then ier == 715
       else if !AllCuttable(r0, j, novref) then ier == 714
       else ier == 0 && kbit == j && IsSplit(r0, r1, ibit, jbit, kbit0, kbit, novref)
  }

  /** Kept when the bits fall all the way to 2, decided where they stop falling otherwise. */
  ghost predicate Decided(r0: seq<Grp>, r1: seq<Grp>, room: nat, ier: int, ibit: nat, jbit: nat, kbit0: nat, kbit: nat,
                          novref: nat)
  {
    hide Falls, Bottom, DecidedAt;
    && (Falls(r0, ibit, jbit, kbit0, 2) ==> ier == 0 && kbit == kbit0 && r1 == r0)
    && forall j :: Bottom(r0, ibit, jbit, kbit0, j) ==> DecidedAt(r0, r1, room, ier, ibit, jbit, kbit0, kbit, novref, j)
  }

  lemma {:induction false} DecidedBy(r0: seq<Grp>, r1: seq<Grp>, room: nat, ier: int, ibit: nat, jbit: nat, kbit0: nat,
                                     kbit: nat, novref: nat, j: nat)
    requires Bottom(r0, ibit, jbit, kbit0, j)
    requires DecidedAt(r0, r1, room, ier, ibit, jbit, kbit0, kbit, novref, j)
    ensures Decided(r0, r1, room, ier, ibit, jbit, kbit0, kbit, novref)
  {
    hide Falls, Bottom, DecidedAt;
    forall k | Bottom(r0, ibit, jbit, kbit0, k)
      ensures DecidedAt(r0, r1, room, ier, ibit, jbit, kbit0, kbit, novref, k)
    {
      BottomUnique(r0, ibit, jbit, kbit0, j, k);
    }
    BottomUnique(r0, ibit, jbit, kbit0, j, j);
  }

  lemma {:induction false} KeptNoBottom(r0: seq<Grp>, room: nat, ibit: nat, jbit: nat, kbit: nat, novref: nat)
    requires Falls(r0, ibit, jbit, kbit, 2)
    ensures Decided(r0, r0, room, 0, ibit, jbit, kbit, kbit, novref)
  {
    hide Falls, Bottom, DecidedAt;
    forall j | Bottom(r0, ibit, jbit, kbit, j) ensures false {
      BottomUnique(r0, ibit, jbit, kbit, j, j);
    }
  }

  lemma {:induction false} Bounded(r0: seq<Grp>, ibit: nat, jbit: nat, kbit: nat, jj: nat, cost: int)
    requires Bottom(r0, ibit, jbit, kbit, jj) && cost == BitsAt(r0, ibit, jbit, kbit, jj) && 1 <= |r0|
    ensures 3 <= jj <= kbit && (jj == kbit ==> cost == (ibit + jbit + kbit) * |r0| > 0)
    ensures Worthwhile(r0, ibit, jbit, kbit, jj) <==>
      100 * ((ibit + jbit + kbit) * |r0| - cost) >= 2 * ((ibit + jbit + kbit) * |r0|)
  {
    hide Falls;
    MulLe(1, ibit + jbit + kbit, |r0|);
  }

  lemma {:induction false} KeptAsBottom(r0: seq<Grp>, room: nat, ibit: nat, jbit: nat, kbit: nat, novref: nat, j: nat)
    requires Bottom(r0, ibit, jbit, kbit, j) && 1 <= j <= kbit && !Worthwhile(r0, ibit, jbit, kbit, j)
    ensures Decided(r0, r0, room, 0, ibit, jbit, kbit, kbit, novref)
  {
    hide Bottom, Worthwhile, Decided;
    DecidedBy(r0, r0, room, 0, ibit, jbit, kbit, kbit, novref, j);
  }

  lemma {:induction false} GivenUp(r0: seq<Grp>, r1: seq<Grp>, room: nat, ier: int, ibit: nat, jbit: nat, kbit: nat,
                                   novref: nat, j: nat)
    requires Bottom(r0, ibit, jbit, kbit, j) && 1 <= j <= kbit && Worthwhile(r0, ibit, jbit, kbit, j)
    requires if |r0| + TotalBoxes(r0, j) > room then ier == 715 else ier == 714 && !AllCuttable(r0, j, novref)
    ensures Decided(r0, r1, room, ier, ibit, jbit, kbit, kbit, novref)
  {
    hide Bottom, Worthwhile, Decided, AllCuttable, TotalBoxes;
    DecidedBy(r0, r1, room, ier, ibit, jbit, kbit, kbit, novref, j);
  }

  lemma {:induction false} SplitDone(r0: seq<Grp>, r1: seq<Grp>, room: nat, ibit: nat, jbit: nat, kbit: nat,
                                     novref: nat, j: nat)
    requires Bottom(r0, ibit, jbit, kbit, j) && 1 <= j < kbit && Worthwhile(r0, ibit, jbit, kbit, j)
    requires |r0| + TotalBoxes(r0, j) == |r1| <= room && AllCuttable(r0, j, novref)
    requires r1 == CutTo(r0, j, novref)
    ensures Decided(r0, r1, room, 0, ibit, jbit, kbit, j, novref) && IsSplit(r0, r1, ibit, jbit, kbit, j, novref)
  {
    assert 3 <= j && IsSplit(r0, r1, ibit, jbit, kbit, j, novref) by { hide Cut, Cuttable, TotalBoxes, Falls, BoxList; }
    hide Bottom, Worthwhile, Decided, AllCuttable, TotalBoxes, IsSplit;
    DecidedBy(r0, r1, room, 0, ibit, jbit, kbit, j, novref, j);
  }

  /** 0: the rows are as before, or split at a gain of 2% or more; 714 and 715: given up. */
  method Reduce(rows: array<Grp>, lx0: nat, ibit: nat, jbit: nat, kbit0: nat, novref: nat)
    returns (ier: int, lx: nat, kbit: nat)
    requires 1 <= lx0 <= rows.Length && kbit0 <= 30
    modifies rows
    ensures ier == 0 || ier == 714 || ier == 715
    ensures lx <= rows.Length
    ensures ier == 0 ==> ((lx == lx0 && kbit == kbit0 && rows[..lx] == old(rows[..lx0])) ||
                          IsSplit(old(rows[..lx0]), rows[..lx], ibit, jbit, kbit0, kbit, novref))
    ensures lx0 == 1 ==> ier == 0 && lx == lx0 && kbit == kbit0 && rows[..lx] == old(rows[..lx0])
    ensures lx0 > 1 ==>
      Decided(old(rows[..lx0]), rows[..lx], rows.Length, ier, ibit, jbit, kbit0, kbit, novref)
  {
    hide *;
    ier, lx, kbit := 0, lx0, kbit0;
    if lx == 1 { return; }
    ghost var r0 := rows[..lx0];
    var jj, newboxp, newboxtp, cost := Search(rows, lx, ibit, jbit, kbit);
    if jj == 0 {
      KeptNoBottom(r0, rows.Length, ibit, jbit, kbit0, novref);
      return;
    }
    var iorigb := (ibit + jbit + kbit) * lx;
    Bounded(r0, ibit, jbit, kbit, jj, cost);
    if 100 * (iorigb - cost) >= 2 * iorigb {
      var lxnkp := lx + newboxtp;
      if lxnkp > rows.Length {
        ier := 715;
        GivenUp(r0, rows[..lx], rows.Length, ier, ibit, jbit, kbit0, novref, jj);
        return;
      }
      TotalIsSum(r0, jj);
      Unsplit(r0, jj);
      ier := Expand(rows, lx, newboxp, lxnkp, Pow2(jj) - 1, novref);
      AllCuttableIs(r0, newboxp, jj, novref);
      if ier != 0 {
        GivenUp(r0, rows[..lx], rows.Length, ier, ibit, jbit, kbit0, novref, jj);
        return;
      }
      CutFits(r0, newboxp, Pow2(jj) - 1, novref);
      lx, kbit := lxnkp, jj;
      SplitDone(r0, rows[..lx], rows.Length, ibit, jbit, kbit0, novref, jj);
    } else {
      KeptAsBottom(r0, rows.Length, ibit, jbit, kbit0, novref, jj);
    }
  }

  lemma {:induction false} Unsplit(rows: seq<Grp>, j: nat)
    requires j >= 1
    ensures forall l :: 0 <= l < |rows| && BoxList(rows, j)[l] == 0 ==> rows[l].nov <= Pow2(j) - 1
  {
    forall l | 0 <= l < |rows| && BoxList(rows, j)[l] == 0 ensures rows[l].nov <= Pow2(j) - 1 {
      BoxesLeast(rows[l].nov, j);
    }
  }
}
