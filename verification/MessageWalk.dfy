/**
 * The walk of `g2_getfld` over a message, which keeps the latest local section, grid and bit map
 * and unpacks the requested field; and exactly when it ends.
 */
module MessageWalk {
  import opened Options
  import opened Shifts
  import opened BitString
  import opened Templates
  import opened SectionFormat
  import opened Sections
  import opened Message

  /** What has been gathered for the caller. */
  datatype Record = Record(ids: seq<int>, local: seq<int>, grid: Option<GridRecord>, product: Option<ProductRecord>,
                           repr: Option<DataRecord>, ibmap: int, bmap: Option<seq<int>>, fld: Option<seq<real>>,
                           expanded: bool)

  const EMPTY := Record([], [], None, None, None, 0, None, None, false)

  /** The loop's variables; `have6` tells that some bit-map section has been seen. */
  datatype State = State(ipos: nat, numfld: nat, have6: bool, rec: Record)

  datatype Outcome = Error(ierr: int) | Found(rec: Record) | Going(st: State)

  /** What is asked for: the number of the field, and whether to unpack and to expand it. */
  datatype Request = Request(ifldnum: int, unpack: bool, expand: bool)

  // ----- one section

  /** The data at those of n grid points whose bit is 1, and 0 elsewhere. */
  function Expand(bmap: seq<int>, fld: seq<real>, n: nat): (r: seq<real>)
    ensures |r| == n
  {
    if n == 0 then [] else
    var k := n - 1;
    Expand(bmap, fld, k)
    + [if k < |bmap| && bmap[k] == 1 && Ones(bmap[..k]) < |fld| then fld[Ones(bmap[..k])] else 0.0]
  }

  function GridPoints(grid: Option<GridRecord>): (n: nat)
  {
    if grid.Some? && |grid.value.igds| == 5 && grid.value.igds[1] >= 0 then grid.value.igds[1] else 0
  }

  function TakeBitmap(s: seq<bit>, rec: Record): (r: Got<Record>)
  {
    var b := Unpack6(s, GridPoints(rec.grid));
    if b.Bad? then Bad(13)
    else if b.value.0 == 254 then (if rec.bmap.None? then Bad(17) else Got(rec.(ibmap := 254)))
    else Got(rec.(ibmap := b.value.0, bmap := if b.value.0 == 0 then Some(b.value.1) else None))
  }

  function TakeData(s: seq<bit>, unp: Unpacker, expand: bool, rec: Record): (r: Got<Record>)
  {
    var d := unp(rec.grid, rec.repr, s);
    if d.None? then Bad(14)
    else if rec.ibmap != 255 && rec.bmap.Some? then
      (if expand then Got(rec.(fld := Some(Expand(rec.bmap.value, d.value, GridPoints(rec.grid))), expanded := true))
       else Got(rec.(fld := d, expanded := false)))
    else Got(rec.(fld := d, expanded := true))
  }

  /** The record after the section of the given number at the front of s; numfld counts this one. */
  function Take(s: seq<bit>, unp: Unpacker, q: Request, number: nat, numfld: nat, rec: Record): (r: Got<Record>)
  {
    match number
    case 1 => (var a := Unpack1(s); if a.Bad? then Bad(15) else Got(rec.(ids := a.value)))
    case 2 => (var a := Unpack2(s); if a.Bad? then Bad(16) else Got(rec.(local := a.value)))
    case 3 => (var a := Unpack3(s); if a.Bad? then Bad(10) else Got(rec.(grid := Some(a.value))))
    case 4 =>
      if numfld != q.ifldnum then Got(rec) else
      (var a := Unpack4(s); if a.Bad? then Bad(11) else Got(rec.(product := Some(a.value), expanded := false)))
    case 5 =>
      if numfld != q.ifldnum then Got(rec) else
      (var a := Unpack5(s); if a.Bad? then Bad(12) else Got(rec.(repr := Some(a.value))))
    case 6 =>
      if q.unpack then TakeBitmap(s, rec)
      else if |s| < 48 then Bad(7) else Got(rec.(ibmap := Dec(s[40..48])))
    case _ =>
      if numfld != q.ifldnum || !q.unpack then Got(rec) else TakeData(s, unp, q.expand, rec)
  }

  predicate AllSeen(q: Request, have6: bool, rec: Record)
  {
    && rec.grid.Some? && rec.product.Some? && rec.repr.Some? && have6
    && (q.unpack ==> rec.fld.Some?)
  }

  /** The message ends where its own length says, counted from its start. */
  datatype Extent = Extent(istart: nat, lengrib: nat)

  /** One trip of the loop. */
  ghost function Step(s: seq<bit>, unp: Unpacker, q: Request, x: Extent, st: State): (o: Outcome)
  {
    hide Take;
    var p := 8 * st.ipos;
    if p + 32 > |s| then Error(7)
    else if s[p..p + 32] == Bits(SEVENS) then Error(if st.ipos + 4 != x.istart + x.lengrib then 4 else 6)
    else if p + 40 > |s| then Error(7)
    else
      var lensec, isecnum := Dec(s[p..p + 32]), Dec(s[p + 32..p + 40]);
      if isecnum < 1 || isecnum > 7 then Error(8)
      else
        var numfld := st.numfld + if isecnum == 4 then 1 else 0;
        var have6 := st.have6 || isecnum == 6;
        var r := Take(s[p..], unp, q, isecnum, numfld, st.rec);
        if r.Bad? then Error(r.ierr)
        else if st.ipos + lensec > x.istart + x.lengrib then Error(7)
        else if AllSeen(q, have6, r.value) then Found(r.value)
        else Going(State(st.ipos + lensec, numfld, have6, r.value))
  }

  /** The loop, cut off after a number of trips: a section of length 0 may be read for ever. */
  ghost function Loop(s: seq<bit>, unp: Unpacker, q: Request, x: Extent, st: State, trips: nat): (o: Outcome)
    decreases trips
  {
    if trips == 0 then Going(st) else
    var o := Step(s, unp, q, x, st);
    if o.Going? then Loop(s, unp, q, x, o.st, trips - 1) else o
  }

  // ----- the start of the message

  /** The first "GRIB" among the first n octets. */
  ghost function FirstGrib(a: seq<byte>, j: nat, n: nat): (r: Option<nat>)
    requires n <= 0 || n + 3 <= |a|
    ensures r.Some? ==> r.value < n
    decreases n - j
  {
    if j >= n then None else if a[j..j + 4] == GRIB then Some(j) else FirstGrib(a, j + 1, n)
  }

  ghost function Window(a: seq<byte>): (n: nat)
    requires |a| >= 4
  {
    if |a| - 3 > 100 then 100 else |a| - 3
  }

  /** Where the walk begins and ends, or the error found before it. */
  ghost function Begin(a: seq<byte>, q: Request): (r: Got<Extent>)
  {
    if q.ifldnum <= 0 then Bad(3)
    else if |a| < 4 then Bad(1)
    else
      var f := FirstGrib(a, 0, Window(a));
      if f.None? || f.value + 16 > |a| then Bad(1)
      else
        var s, p := Bits(a), 8 * f.value;
        if Dec(s[p + 56..p + 64]) != 2 then Bad(2) else Got(Extent(f.value, Dec(s[p + 96..p + 128])))
  }

  /** Trips enough for any walk that ends. */
  ghost function Trips(s: seq<bit>, q: Request, st: State): (n: nat)
  {
    (if 8 * st.ipos < |s| then |s| - 8 * st.ipos else 0) + 1
    + if st.numfld < q.ifldnum then q.ifldnum - st.numfld else 0
  }

  /** What the routine returns; still going when it never does. */
  ghost function GetFldOutcome(a: seq<byte>, unp: Unpacker, q: Request): (o: Outcome)
  {
    var b := Begin(a, q);
    if b.Bad? then Error(b.ierr)
    else
      var s, st := Bits(a), FirstState(b.value);
      Loop(s, unp, q, b.value, st, Trips(s, q, st))
  }

  ghost function FirstState(x: Extent): (st: State)
  {
    State(x.istart + 16, 0, false, EMPTY)
  }

  // ----- when the walk ends

  /** What is checked of a section whatever is taken from it. */
  ghost predicate Passes(s: seq<bit>, x: Extent, ipos: nat)
  {
    var p := 8 * ipos;
    && p + 40 <= |s| && s[p..p + 32] != Bits(SEVENS) && 1 <= Dec(s[p + 32..p + 40]) <= 7
    && ipos + Dec(s[p..p + 32]) <= x.istart + x.lengrib
  }

  /** The trip goes on exactly if the section passes, can be taken, and something is still missing. */
  lemma {:induction false} StepIs(s: seq<bit>, unp: Unpacker, q: Request, x: Extent, st: State)
    ensures Step(s, unp, q, x, st).Going? ==> Passes(s, x, st.ipos)
    ensures Passes(s, x, st.ipos) ==>
      var p := 8 * st.ipos;
      var isecnum := Dec(s[p + 32..p + 40]);
      var numfld, have6 := st.numfld + (if isecnum == 4 then 1 else 0), st.have6 || isecnum == 6;
      var r := Take(s[p..], unp, q, isecnum, numfld, st.rec);
      Step(s, unp, q, x, st) ==
        if r.Bad? then Error(r.ierr) else if AllSeen(q, have6, r.value) then Found(r.value)
        else Going(State(st.ipos + Dec(s[p..p + 32]), numfld, have6, r.value))
  {
    hide Take, Dec, Bits, AllSeen;
  }

  /**
   * A section 4 of length 0 counts once more on every trip, until it counts as the requested
   * field; the walk ends there if the section cannot be read or was all that was missing.
   */
  ghost predicate CountsUp(s: seq<bit>, unp: Unpacker, q: Request, st: State)
  {
    hide Take;
    var p := 8 * st.ipos;
    && p + 40 <= |s| && Dec(s[p + 32..p + 40]) == 4 && st.numfld < q.ifldnum
    && (var r := Take(s[p..], unp, q, 4, q.ifldnum, st.rec); r.Bad? || AllSeen(q, st.have6, r.value))
  }

  /** No section of length 0 is gone past, unless it counts up to the end. */
  ghost predicate Halts(s: seq<bit>, unp: Unpacker, q: Request, x: Extent, st: State)
    decreases |s| - 8 * st.ipos
  {
    hide Step, CountsUp, Take, Passes;
    StepIs(s, unp, q, x, st);
    var o := Step(s, unp, q, x, st);
    o.Going? ==>
      (StaysInside(s, x, st.ipos);
       if o.st.ipos > st.ipos then Halts(s, unp, q, x, o.st) else CountsUp(s, unp, q, st))
  }

  lemma {:induction false} StaysInside(s: seq<bit>, x: Extent, ipos: nat)
    requires Passes(s, x, ipos)
    ensures 8 * ipos + 40 <= |s|
  {
  }

  lemma {:induction false} LoopStep(s: seq<bit>, unp: Unpacker, q: Request, x: Extent, st: State, n: nat)
    requires n > 0
    ensures var o := Step(s, unp, q, x, st);
      Loop(s, unp, q, x, st, n) == if o.Going? then Loop(s, unp, q, x, o.st, n - 1) else o
  {
    hide Step;
  }

  /** Once ended, further trips change nothing. */
  lemma {:induction false} LoopMore(s: seq<bit>, unp: Unpacker, q: Request, x: Extent, st: State, n: nat, m: nat)
    requires n <= m && !Loop(s, unp, q, x, st, n).Going?
    ensures Loop(s, unp, q, x, st, m) == Loop(s, unp, q, x, st, n)
    decreases n
  {
    hide Step;
    if n > 0 {
      var o := Step(s, unp, q, x, st);
      if o.Going? { LoopMore(s, unp, q, x, o.st, n - 1, m - 1); }
    }
  }

  /** Where the next trip is again over the same section, one that counts up comes to its end. */
  lemma {:induction false} Counted(s: seq<bit>, unp: Unpacker, q: Request, x: Extent, st: State)
    requires Passes(s, x, st.ipos) && Dec(s[8 * st.ipos..8 * st.ipos + 32]) == 0 && CountsUp(s, unp, q, st)
    ensures st.numfld < q.ifldnum && !Loop(s, unp, q, x, st, q.ifldnum - st.numfld).Going?
    decreases q.ifldnum - st.numfld
  {
    hide Step, Dec, Bits, Unpack4, AllSeen, Unpack1, Unpack2, Unpack3, Unpack5, TakeBitmap, TakeData;
    StepIs(s, unp, q, x, st);
    LoopStep(s, unp, q, x, st, q.ifldnum - st.numfld);
    var o := Step(s, unp, q, x, st);
    if o.Going? { Counted(s, unp, q, x, o.st); }
  }

  /** Taking a section other than 4 once more changes nothing. */
  lemma {:induction false} TakenAgain(s: seq<bit>, unp: Unpacker, q: Request, number: nat, numfld: nat, rec: Record)
    requires number != 4 && Take(s, unp, q, number, numfld, rec).Got?
    ensures var r := Take(s, unp, q, number, numfld, rec); Take(s, unp, q, number, numfld, r.value) == r
  {
    hide Unpack1, Unpack2, Unpack3, Unpack4, Unpack5, Unpack6, Dec, Expand;
  }

  lemma {:induction false} Fixed(s: seq<bit>, unp: Unpacker, q: Request, x: Extent, st: State, n: nat)
    requires Step(s, unp, q, x, st) == Going(st)
    ensures Loop(s, unp, q, x, st, n) == Going(st)
  {
    hide Step;
    if n > 0 { Fixed(s, unp, q, x, st, n - 1); }
  }

  /** A section 4 of length 0 that does not count up to an end. */
  ghost predicate CountsOn(s: seq<bit>, unp: Unpacker, q: Request, x: Extent, st: State)
  {
    hide Take;
    var p := 8 * st.ipos;
    && Passes(s, x, st.ipos) && Dec(s[p..p + 32]) == 0 && Dec(s[p + 32..p + 40]) == 4 && !AllSeen(q, st.have6, st.rec)
    && (st.numfld < q.ifldnum ==>
          (var r := Take(s[p..], unp, q, 4, q.ifldnum, st.rec); r.Got? && !AllSeen(q, st.have6, r.value)))
  }

  lemma {:induction false} CountedOn(s: seq<bit>, unp: Unpacker, q: Request, x: Extent, st: State, n: nat)
    requires CountsOn(s, unp, q, x, st)
    ensures Loop(s, unp, q, x, st, n).Going?
    decreases n
  {
    hide Step, Dec, Bits, Unpack4, AllSeen, Passes, Unpack1, Unpack2, Unpack3, Unpack5, TakeBitmap, TakeData;
    if n > 0 {
      StepIs(s, unp, q, x, st);
      var o := Step(s, unp, q, x, st);
      assert o.Going? && CountsOn(s, unp, q, x, o.st);
      LoopStep(s, unp, q, x, st, n);
      CountedOn(s, unp, q, x, o.st, n - 1);
    }
  }

  /** A section of length 0 that is gone past is read for ever. */
  lemma {:induction false} Stuck(s: seq<bit>, unp: Unpacker, q: Request, x: Extent, st: State, n: nat)
    requires var o := Step(s, unp, q, x, st); o.Going? && o.st.ipos == st.ipos
    requires !CountsUp(s, unp, q, st)
    ensures Loop(s, unp, q, x, st, n).Going?
  {
    hide Step, Dec, Bits, AllSeen, Passes, Unpack4, Unpack1, Unpack2, Unpack3, Unpack5, TakeBitmap, TakeData;
    StepIs(s, unp, q, x, st);
    StaysInside(s, x, st.ipos);
    var p := 8 * st.ipos;
    var isecnum := Dec(s[p + 32..p + 40]);
    var o := Step(s, unp, q, x, st);
    if n > 0 {
      LoopStep(s, unp, q, x, st, n);
      if isecnum == 4 {
        assert CountsOn(s, unp, q, x, o.st);
        CountedOn(s, unp, q, x, o.st, n - 1);
      } else {
        TakenAgain(s[p..], unp, q, isecnum, st.numfld, st.rec);
        StepIs(s, unp, q, x, o.st);
        Fixed(s, unp, q, x, o.st, n - 1);
      }
    }
  }

  /** The walk ends if and only if it halts, and then within the trips given. */
  lemma {:induction false} Ending(s: seq<bit>, unp: Unpacker, q: Request, x: Extent, st: State)
    ensures Halts(s, unp, q, x, st) ==> !Loop(s, unp, q, x, st, Trips(s, q, st)).Going?
    ensures !Halts(s, unp, q, x, st) ==> forall n: nat :: Loop(s, unp, q, x, st, n).Going?
    decreases |s| - 8 * st.ipos
  {
    hide Step, Dec, Bits, CountsUp, Loop, Take;
    StepIs(s, unp, q, x, st);
    var o := Step(s, unp, q, x, st);
    var t := Trips(s, q, st);
    LoopStep(s, unp, q, x, st, t);
    if o.Going? {
      if o.st.ipos > st.ipos {
        Ending(s, unp, q, x, o.st);
        if Halts(s, unp, q, x, o.st) {
          LoopMore(s, unp, q, x, o.st, Trips(s, q, o.st), t - 1);
        } else {
          forall n: nat ensures Loop(s, unp, q, x, st, n).Going? { OneMore(s, unp, q, x, st, n); }
        }
      } else if CountsUp(s, unp, q, st) {
        Counted(s, unp, q, x, st);
        LoopMore(s, unp, q, x, st, q.ifldnum - st.numfld, t);
      } else {
        forall n: nat ensures Loop(s, unp, q, x, st, n).Going? { Stuck(s, unp, q, x, st, n); }
      }
    }
  }

  lemma {:induction false} OneMore(s: seq<bit>, unp: Unpacker, q: Request, x: Extent, st: State, n: nat)
    requires var o := Step(s, unp, q, x, st); o.Going? && forall n: nat :: Loop(s, unp, q, x, o.st, n).Going?
    ensures Loop(s, unp, q, x, st, n).Going?
  {
    hide Step;
  }

  /** Following the stored lengths from an octet on, no section has length 0. */
  ghost predicate NoneEmpty(s: seq<bit>, ipos: nat)
    decreases |s| - 8 * ipos
  {
    var p := 8 * ipos;
    p + 40 <= |s| && s[p..p + 32] != Bits(SEVENS) ==> Dec(s[p..p + 32]) > 0 && NoneEmpty(s, ipos + Dec(s[p..p + 32]))
  }

  /** Such a walk ends, whatever is asked for and whatever the sections hold. */
  lemma {:induction false} NoneEmptyHalts(s: seq<bit>, unp: Unpacker, q: Request, x: Extent, st: State)
    requires NoneEmpty(s, st.ipos)
    ensures Halts(s, unp, q, x, st)
    decreases |s| - 8 * st.ipos
  {
    hide Step, Dec, Bits, Take, CountsUp;
    StepIs(s, unp, q, x, st);
    var o := Step(s, unp, q, x, st);
    if o.Going? { NoneEmptyHalts(s, unp, q, x, o.st); }
  }

  /** The whole routine ends on these octets. */
  ghost predicate Ends(a: seq<byte>, unp: Unpacker, q: Request)
  {
    var b := Begin(a, q);
    b.Got? ==> Halts(Bits(a), unp, q, b.value, FirstState(b.value))
  }

  lemma {:induction false} EndsExactly(a: seq<byte>, unp: Unpacker, q: Request)
    ensures Ends(a, unp, q) <==> !GetFldOutcome(a, unp, q).Going?
  {
    hide Halts, Loop, Begin, Bits;
    var b := Begin(a, q);
    if b.Got? { Ending(Bits(a), unp, q, b.value, FirstState(b.value)); }
  }

  /** Section 0 and a section 1 whose length is stored as 0. */
  const ENDLESS: seq<byte> :=
    GRIB + [0, 0, 0, 2] + [0, 0, 0, 0] + [0, 0, 0, 37] + [0, 0, 0, 0] + [1] + [0, 0, 0, 0, 0, 0, 0, 0] +
      [0, 0, 0, 0, 0, 0, 0, 0]

  lemma {:induction false} EndlessParts()
    ensures |ENDLESS| == 37 && ENDLESS[0..4] == GRIB && ENDLESS[7] == 2 && ENDLESS[12..16] == [0, 0, 0, 37]
    ensures ENDLESS[16..20] == [0, 0, 0, 0] && ENDLESS[20] == 1
  {
  }

  /** They are read for ever, whatever is asked for. */
  lemma {:induction false} EndlessIsRead(unp: Unpacker, q: Request, n: nat)
    requires q.ifldnum > 0
    ensures Begin(ENDLESS, q) == Got(Extent(0, 37)) && !Ends(ENDLESS, unp, q)
    ensures Loop(Bits(ENDLESS), unp, q, Extent(0, 37), FirstState(Extent(0, 37)), n).Going?
  {
    hide Bits, Dec, Take, Step, Loop, Halts, FetchList, ENDLESS, Passes, Begin;
    var x := Extent(0, 37);
    EndlessBegin(q);
    EmptyIdentification(Bits(ENDLESS), unp, q, x, FirstState(x));
    Ending(Bits(ENDLESS), unp, q, x, FirstState(x));
  }

  lemma {:induction false} EndlessBegin(q: Request)
    requires q.ifldnum > 0
    ensures Begin(ENDLESS, q) == Got(Extent(0, 37)) && |Bits(ENDLESS)| == 296
    ensures Passes(Bits(ENDLESS), Extent(0, 37), 16)
    ensures Dec(Bits(ENDLESS)[128..160]) == 0 && Dec(Bits(ENDLESS)[160..168]) == 1
  {
    hide Bits, Dec, ENDLESS;
    var a := ENDLESS;
    EndlessParts();
    BitsSlice(a, 12, 16);
    FourOctets(0, 0, 0, 37);
    BitsSlice(a, 16, 20);
    FourOctets(0, 0, 0, 0);
    BitsOfByte(a, 7);
    DecByte(2);
    BitsOfByte(a, 20);
    DecByte(1);
    if Bits(a)[128..160] == Bits(SEVENS) { BitsInjective(a[16..20], SEVENS); }
  }

  /** A section 1 of length 0, met before any grid, is read for ever. */
  lemma {:induction false} EmptyIdentification(s: seq<bit>, unp: Unpacker, q: Request, x: Extent, st: State)
    requires var p := 8 * st.ipos;
      Passes(s, x, st.ipos) && p + 168 <= |s| && Dec(s[p..p + 32]) == 0 && Dec(s[p + 32..p + 40]) == 1
    requires st.rec.grid.None?
    ensures !Halts(s, unp, q, x, st)
  {
    hide Bits, Dec, Step, Take, Passes;
    var p := 8 * st.ipos;
    StepIs(s, unp, q, x, st);
    TakeFirst(s[p..], unp, q, st.numfld, st.rec);
    assert s[p..][32..40] == s[p + 32..p + 40];
  }

  lemma {:induction false} TakeFirst(s: seq<bit>, unp: Unpacker, q: Request, numfld: nat, rec: Record)
    requires |s| >= 168
    ensures Dec(s[32..40]) == 1 ==>
      var r := Take(s, unp, q, 1, numfld, rec); r.Got? && r.value.grid == rec.grid
  {
    hide Dec, FetchList, Unpack2, Unpack3, Unpack4, Unpack5, TakeBitmap, TakeData, ListWidth;
    Fetchable(s[40..], IDENT);
    IdentWidth();
  }
}
