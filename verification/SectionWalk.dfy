/**
 * The checks with which the builder's routines start, on any octets: the beginning, the end, and a
 * walk from section to section by the stored lengths, none of which is checked.
 */
module SectionWalk {
  import opened BitString
  import opened BitIO
  import opened Message

  // ----- the walk

  /** What the walk finds: 0 or an error, the last number, a section 3, a bit map for later use. */
  datatype Walked = Walked(ierr: int, number: nat, grid: bool, map_: bool)

  ghost predicate InSight(s: seq<bit>, forField: bool, len: nat)
  {
    && 8 * len + 40 <= |s|
    && (forField && NumberAt(s, len) == 6 ==> 8 * len + 48 <= |s|)
  }

  ghost function LengthAt(s: seq<bit>, len: nat): (n: nat)
    requires 8 * len + 32 <= |s|
  {
    Dec(s[8 * len..8 * len + 32])
  }

  ghost function NumberAt(s: seq<bit>, len: nat): (n: nat)
    requires 8 * len + 40 <= |s|
  {
    Dec(s[8 * len + 32..8 * len + 40])
  }

  /** A section 6 whose bit map a later field may refer to. */
  ghost predicate MapAt(s: seq<bit>, forField: bool, len: nat)
    requires InSight(s, forField, len)
  {
    forField && NumberAt(s, len) == 6 && Dec(s[8 * len + 40..8 * len + 48]) <= 253
  }

  /** From octet len the walk stays inside the octets, and no section that it has to pass has length 0. */
  ghost predicate Walks(s: seq<bit>, lencurr: nat, forField: bool, len: nat)
    decreases lencurr - len
  {
    hide Dec;
    && InSight(s, forField, len)
    && var n := LengthAt(s, len);
       (len + n < lencurr ==> n > 0 && Walks(s, lencurr, forField, len + n))
  }

  ghost function WalkFrom(s: seq<bit>, lencurr: nat, forField: bool, len: nat, grid: bool, map_: bool): (w: Walked)
    requires Walks(s, lencurr, forField, len)
    decreases lencurr - len
  {
    hide Dec;
    var next, number := len + LengthAt(s, len), NumberAt(s, len);
    var grid', map' := grid || number == 3, map_ || MapAt(s, forField, len);
    if next == lencurr then Walked(0, number, grid', map')
    else if next > lencurr then Walked(-3, number, grid', map')
    else WalkFrom(s, lencurr, forField, next, grid', map')
  }

  /** The loop, which has no other way to end. */
  method Walk(cgrib: array<byte>, lencurr: nat, forField: bool)
    returns (ierr: int, isecnum: nat, issec3: bool, isprevbmap: bool)
    requires Walks(Bits(cgrib[..]), lencurr, forField, 16)
    ensures WalkFrom(Bits(cgrib[..]), lencurr, forField, 16, false, false) == Walked(ierr, isecnum, issec3, isprevbmap)
  {
    hide Bits, Dec;
    ghost var s := Bits(cgrib[..]);
    ierr, issec3, isprevbmap := 0, false, false;
    var len := 16;
    while true
      invariant Walks(s, lencurr, forField, len)
      invariant WalkFrom(s, lencurr, forField, 16, false, false)
             == WalkFrom(s, lencurr, forField, len, issec3, isprevbmap)
      decreases lencurr - len
    {
      var ilen := GetField(cgrib, 8 * len, 32);
      isecnum := GetField(cgrib, 8 * len + 32, 8);
      if isecnum == 3 { issec3 := true; }
      if forField && isecnum == 6 {
        var ibmprev := GetField(cgrib, 8 * len + 40, 8);
        if ibmprev <= 253 { isprevbmap := true; }
      }
      len := len + ilen;
      if len == lencurr { break; }
      if len > lencurr {
        ierr := -3;
        return;
      }
    }
  }

  // ----- what it finds

  /** Sections of these lengths stand one behind another from octet len. */
  ghost predicate Stored(s: seq<bit>, len: nat, ls: seq<nat>)
    decreases |ls|
  {
    hide Dec;
    ls != [] ==> 8 * len + 32 <= |s| && LengthAt(s, len) == ls[0] && Stored(s, len + ls[0], ls[1..])
  }

  ghost function EndOf(len: nat, ls: seq<nat>): (n: nat)
    decreases |ls|
  {
    if ls == [] then len else EndOf(len + ls[0], ls[1..])
  }

  lemma {:induction false} EndAfter(len: nat, ls: seq<nat>)
    ensures EndOf(len, ls) >= len
    decreases |ls|
  {
    if ls != [] { EndAfter(len + ls[0], ls[1..]); }
  }

  /** The lengths from octet len on add up to lencurr. */
  ghost predicate AddsUp(s: seq<bit>, lencurr: nat, len: nat)
  {
    exists ls :: ls != [] && Stored(s, len, ls) && EndOf(len, ls) == lencurr
  }

  /** One section more. */
  lemma {:induction false} StoredNext(s: seq<bit>, len: nat, ls: seq<nat>)
    requires 8 * len + 32 <= |s|
    ensures Stored(s, len, [LengthAt(s, len)] + ls) <==> Stored(s, len + LengthAt(s, len), ls)
    ensures EndOf(len, [LengthAt(s, len)] + ls) == EndOf(len + LengthAt(s, len), ls)
  {
    hide LengthAt;
    var ms := [LengthAt(s, len)] + ls;
    assert ms[0] == LengthAt(s, len) && ms[1..] == ls;
  }

  /** -3 is returned if and only if no number of sections ends where the message does. */
  lemma {:induction false} WalkedExactly(s: seq<bit>, lencurr: nat, forField: bool, len: nat, grid: bool, map_: bool)
    requires Walks(s, lencurr, forField, len)
    ensures var w := WalkFrom(s, lencurr, forField, len, grid, map_);
      w.ierr == if AddsUp(s, lencurr, len) then 0 else -3
    decreases lencurr - len
  {
    hide Dec;
    var n := LengthAt(s, len);
    if len + n == lencurr {
      StoredNext(s, len, []);
      assert [n] + [] == [n];
      assert EndOf(len + n, []) == len + n && Stored(s, len + n, []);
      assert Stored(s, len, [n]) && EndOf(len, [n]) == lencurr;
    } else if len + n < lencurr {
      WalkedExactly(s, lencurr, forField, len + n, grid || NumberAt(s, len) == 3, map_ || MapAt(s, forField, len));
      AddsUpNext(s, lencurr, len);
    } else {
      forall ls | ls != [] && Stored(s, len, ls) ensures EndOf(len, ls) != lencurr {
        EndAfter(len + ls[0], ls[1..]);
      }
    }
  }

  lemma {:induction false} AddsUpNext(s: seq<bit>, lencurr: nat, len: nat)
    requires 8 * len + 32 <= |s| && len + LengthAt(s, len) < lencurr
    ensures AddsUp(s, lencurr, len) <==> AddsUp(s, lencurr, len + LengthAt(s, len))
  {
    hide LengthAt;
    var next := len + LengthAt(s, len);
    if AddsUp(s, lencurr, len) {
      var ls :| ls != [] && Stored(s, len, ls) && EndOf(len, ls) == lencurr;
      var rest := ls[1..];
      assert ls == [LengthAt(s, len)] + rest;
      StoredNext(s, len, rest);
      assert EndOf(next, rest) == lencurr;
      assert rest != [] && Stored(s, next, rest);
    }
    if AddsUp(s, lencurr, next) {
      var ls :| ls != [] && Stored(s, next, ls) && EndOf(next, ls) == lencurr;
      StoredNext(s, len, ls);
      assert [LengthAt(s, len)] + ls != [];
    }
  }

  // ----- whether it ends

  datatype Place = At(len: nat) | Ended | Outside

  /** Where the walk is n sections further. */
  ghost function Along(s: seq<bit>, lencurr: nat, forField: bool, len: nat, n: nat): (p: Place)
    decreases n
  {
    hide Dec;
    if n == 0 then At(len)
    else if !InSight(s, forField, len) then Outside
    else if len + LengthAt(s, len) >= lencurr then Ended
    else Along(s, lencurr, forField, len + LengthAt(s, len), n - 1)
  }

  lemma {:induction false} StaysThere(s: seq<bit>, lencurr: nat, forField: bool, len: nat, n: nat)
    requires InSight(s, forField, len) && len < lencurr && LengthAt(s, len) == 0
    ensures Along(s, lencurr, forField, len, n) == At(len)
  {
    hide Dec, InSight;
    if n > 0 { StaysThere(s, lencurr, forField, len, n - 1); }
  }

  /** It ends. */
  ghost predicate EndsIn(s: seq<bit>, lencurr: nat, forField: bool, len: nat)
  {
    hide *;
    exists n: nat :: Along(s, lencurr, forField, len, n) == Ended
  }

  /** The walk ends inside the octets if and only if it meets no length 0 on its way; a length 0 holds it for ever. */
  lemma {:induction false} WalksExactly(s: seq<bit>, lencurr: nat, forField: bool, len: nat)
    ensures Walks(s, lencurr, forField, len) <==> EndsIn(s, lencurr, forField, len)
    decreases lencurr - len
  {
    hide Dec;
    if InSight(s, forField, len) {
      var next := len + LengthAt(s, len);
      if next >= lencurr {
        assert Along(s, lencurr, forField, len, 1) == Ended;
      } else if next == len {
        forall n: nat ensures Along(s, lencurr, forField, len, n) != Ended { StaysThere(s, lencurr, forField, len, n); }
      } else {
        WalksExactly(s, lencurr, forField, next);
        if n: nat :| Along(s, lencurr, forField, next, n) == Ended {
          assert Along(s, lencurr, forField, len, n + 1) == Ended;
        }
        if n: nat :| Along(s, lencurr, forField, len, n) == Ended {
          assert Along(s, lencurr, forField, next, n - 1) == Ended;
        }
      }
    }
  }

  // ----- all checks

  method IsAt(cgrib: array<byte>, p: nat, four: seq<byte>) returns (yes: bool)
    requires p + 4 <= cgrib.Length && |four| == 4
    ensures yes <==> cgrib[..][p..p + 4] == four
  {
    yes := cgrib[p] == four[0] && cgrib[p + 1] == four[1] && cgrib[p + 2] == four[2] && cgrib[p + 3] == four[3];
    assert cgrib[..][p..p + 4] == [cgrib[p], cgrib[p + 1], cgrib[p + 2], cgrib[p + 3]];
  }

  /** The length of the message, as stored in section 0. */
  ghost function TotalIn(a: seq<byte>): (n: nat)
    requires |a| >= 16
  {
    Dec(Bits(a)[96..128])
  }

  /** The octets start like a message and, as far as the end is looked at, end like one. */
  ghost predicate Complete(a: seq<byte>, unfinished: bool)
    requires |a| >= 16 && (unfinished ==> 4 <= TotalIn(a) <= |a|)
  {
    unfinished && a[TotalIn(a) - 4..TotalIn(a)] == SEVENS
  }

  /** The checks end without reading outside the octets. */
  ghost predicate Checkable(a: seq<byte>, unfinished: bool, forField: bool)
  {
    hide Dec, Bits, Walks;
    && |a| >= 4
    && (a[0..4] == GRIB ==>
          && |a| >= 16 && (unfinished ==> 4 <= TotalIn(a) <= |a|)
          && (Complete(a, unfinished) || Walks(Bits(a), TotalIn(a), forField, 16)))
  }

  ghost function CheckOf(a: seq<byte>, unfinished: bool, forField: bool): (w: Walked)
    requires Checkable(a, unfinished, forField)
  {
    hide Dec, Bits, Walks, WalkFrom;
    if a[0..4] != GRIB then Walked(-1, 0, false, false)
    else if Complete(a, unfinished) then Walked(-2, 0, false, false)
    else WalkFrom(Bits(a), TotalIn(a), forField, 16, false, false)
  }

  method Check(cgrib: array<byte>, unfinished: bool, forField: bool)
    returns (ierr: int, lencurr: nat, isecnum: nat, issec3: bool, isprevbmap: bool)
    requires Checkable(cgrib[..], unfinished, forField)
    ensures Walked(ierr, isecnum, issec3, isprevbmap) == CheckOf(cgrib[..], unfinished, forField)
    ensures ierr == 0 ==> 16 <= cgrib.Length && lencurr == TotalIn(cgrib[..])
  {
    hide Dec, Bits, Walks, WalkFrom;
    lencurr, isecnum, issec3, isprevbmap := 0, 0, false, false;
    var yes := IsAt(cgrib, 0, GRIB);
    if !yes {
      ierr := -1;
      return;
    }
    lencurr := GetField(cgrib, 96, 32);
    if unfinished {
      yes := IsAt(cgrib, lencurr - 4, SEVENS);
      if yes {
        ierr := -2;
        return;
      }
    }
    ierr, isecnum, issec3, isprevbmap := Walk(cgrib, lencurr, forField);
  }

  /** What a routine asks: is the message still open, is the last section one of these, is there a grid. */
  datatype Checks = Checks(unfinished: bool, after: set<nat>, forField: bool)

  const FOR_LOCAL := Checks(true, {1, 7}, false)
  const FOR_GRID := Checks(true, {1, 2, 7}, false)
  const FOR_FIELD := Checks(true, {3, 7}, true)
  const FOR_END := Checks(false, {7}, false)

  /** The error with which the routine returns before it writes anything, 0 if it goes on. */
  ghost function Refused(a: seq<byte>, c: Checks): (ierr: int)
    requires Checkable(a, c.unfinished, c.forField)
  {
    hide Checkable, CheckOf;
    var w := CheckOf(a, c.unfinished, c.forField);
    if w.ierr != 0 then w.ierr else if w.number !in c.after then -4 else if c.forField && !w.grid then -6 else 0
  }
}
