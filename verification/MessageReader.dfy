/** `g2_getfld` on octets. */
module MessageReader {
  import opened Options
  import opened Shifts
  import opened BitString
  import opened BitIO
  import opened Templates
  import opened SectionFormat
  import opened Sections
  import opened SectionReader
  import opened Message
  import opened MessageWalk
  import opened DataSection

  method ExpandField(bmap: seq<int>, fld: seq<real>, ngrdpts: nat) returns (newfld: seq<real>)
    ensures newfld == Expand(bmap, fld, ngrdpts)
  {
    var n: nat := 0;
    newfld := [];
    for j := 0 to ngrdpts
      invariant (j <= |bmap| ==> n == Ones(bmap[..j])) && newfld == Expand(bmap, fld, j)
    {
      if j < |bmap| { assert bmap[..j + 1][..j] == bmap[..j]; }
      if j < |bmap| && bmap[j] == 1 {
        newfld := newfld + [if n < |fld| then fld[n] else 0.0];
        n := n + 1;
      } else {
        newfld := newfld + [0.0];
      }
    }
  }

  method TakeSection(cgrib: array<byte>, ipos: nat, other: Unpacker, q: Request, isecnum: nat, numfld: nat, rec: Record)
    returns (r: Got<Record>)
    requires 8 * ipos + 40 <= 8 * cgrib.Length
    ensures r == Take(Bits(cgrib[..])[8 * ipos..], AnyTemplate(other), q, isecnum, numfld, rec)
  {
    hide Bits, Dec, Unpack1, Unpack2, Unpack3, Unpack4, Unpack5, Unpack6, Expand, AnyTemplate;
    var iofst := 8 * ipos;
    ghost var s := Bits(cgrib[..]);
    r := Got(rec);
    if isecnum == 1 {
      var a := ReadIdentification(cgrib, iofst);
      r := if a.Bad? then Bad(15) else Got(rec.(ids := a.value));
    } else if isecnum == 2 {
      var a := ReadLocal(cgrib, iofst);
      r := if a.Bad? then Bad(16) else Got(rec.(local := a.value));
    } else if isecnum == 3 {
      var a := ReadGrid(cgrib, iofst);
      r := if a.Bad? then Bad(10) else Got(rec.(grid := Some(a.value)));
    } else if isecnum == 4 {
      if numfld == q.ifldnum {
        var a := ReadProduct(cgrib, iofst);
        r := if a.Bad? then Bad(11) else Got(rec.(product := Some(a.value), expanded := false));
      }
    } else if isecnum == 5 {
      if numfld == q.ifldnum {
        var a := ReadRepresentation(cgrib, iofst);
        r := if a.Bad? then Bad(12) else Got(rec.(repr := Some(a.value)));
      }
    } else if isecnum == 6 {
      if q.unpack {
        var b := ReadBitmap(cgrib, iofst, GridPoints(rec.grid));
        if b.Bad? {
          r := Bad(13);
        } else if b.value.0 == 254 {
          r := if rec.bmap.Some? then Got(rec.(ibmap := 254)) else Bad(17);
        } else {
          r := Got(rec.(ibmap := b.value.0, bmap := if b.value.0 == 0 then Some(b.value.1) else None));
        }
      } else if iofst + 48 > 8 * cgrib.Length {
        r := Bad(7);
      } else {
        SliceOfTail(s, iofst, 40, 48);
        var ibmap := GetField(cgrib, iofst + 40, 8);
        r := Got(rec.(ibmap := ibmap));
      }
    } else if numfld == q.ifldnum && q.unpack {
      r := UnpackData(cgrib, ipos, other, q.expand, rec);
    }
  }

  method UnpackData(cgrib: array<byte>, ipos: nat, other: Unpacker, expand: bool, rec: Record) returns (r: Got<Record>)
    requires ipos <= cgrib.Length
    ensures r == TakeData(Bits(cgrib[..])[8 * ipos..], AnyTemplate(other), expand, rec)
  {
    hide Expand, Unpack7;
    var d;
    if Modelled(rec.repr) {
      d := UnpackSection(cgrib, ipos, rec.grid, rec.repr);
    } else {
      d := other(rec.grid, rec.repr, Bits(cgrib[..])[8 * ipos..]);
    }
    if d.None? { return Bad(14); }
    if rec.ibmap != 255 && rec.bmap.Some? {
      if expand {
        var newfld := ExpandField(rec.bmap.value, d.value, GridPoints(rec.grid));
        r := Got(rec.(fld := Some(newfld), expanded := true));
      } else {
        r := Got(rec.(fld := d, expanded := false));
      }
    } else {
      r := Got(rec.(fld := d, expanded := true));
    }
  }

  method IsEnd(cgrib: array<byte>, ipos: nat) returns (yes: bool)
    requires ipos + 4 <= cgrib.Length
    ensures yes <==> Bits(cgrib[..])[8 * ipos..8 * ipos + 32] == Bits(SEVENS)
  {
    hide Bits;
    ghost var a := cgrib[..];
    yes := cgrib[ipos] == 0x37 && cgrib[ipos + 1] == 0x37 && cgrib[ipos + 2] == 0x37 && cgrib[ipos + 3] == 0x37;
    BitsSlice(a, ipos, ipos + 4);
    assert a[ipos..ipos + 4] == [cgrib[ipos], cgrib[ipos + 1], cgrib[ipos + 2], cgrib[ipos + 3]];
    if Bits(a[ipos..ipos + 4]) == Bits(SEVENS) { BitsInjective(a[ipos..ipos + 4], SEVENS); }
  }

  method OneStep(cgrib: array<byte>, other: Unpacker, q: Request, x: Extent, st: State) returns (o: Outcome)
    ensures o == Step(Bits(cgrib[..]), AnyTemplate(other), q, x, st)
  {
    hide Bits, Dec, Take, AnyTemplate;
    var ipos := st.ipos;
    if ipos + 4 > cgrib.Length { return Error(7); }
    var yes := IsEnd(cgrib, ipos);
    if yes { return Error(if ipos + 4 != x.istart + x.lengrib then 4 else 6); }
    if ipos + 5 > cgrib.Length { return Error(7); }
    var lensec := GetField(cgrib, 8 * ipos, 32);
    var isecnum := GetField(cgrib, 8 * ipos + 32, 8);
    if isecnum < 1 || isecnum > 7 { return Error(8); }
    var numfld, have6 := st.numfld, st.have6;
    if isecnum == 4 { numfld := numfld + 1; }
    if isecnum == 6 { have6 := true; }
    var r := TakeSection(cgrib, ipos, other, q, isecnum, numfld, st.rec);
    if r.Bad? { return Error(r.ierr); }
    ipos := ipos + lensec;
    if ipos > x.istart + x.lengrib { return Error(7); }
    if AllSeen(q, have6, r.value) { return Found(r.value); }
    o := Going(State(ipos, numfld, have6, r.value));
  }

  /** Searches the first hundred octets. */
  method FindGrib(cgrib: array<byte>) returns (istart: int)
    requires cgrib.Length >= 4
    ensures var f := FirstGrib(cgrib[..], 0, Window(cgrib[..])); istart == if f.Some? then f.value else -1
  {
    var n := if 100 < cgrib.Length - 3 then 100 else cgrib.Length - 3;
    var j := 0;
    while j < n
      invariant 0 <= j <= n
      invariant FirstGrib(cgrib[..], j, n) == FirstGrib(cgrib[..], 0, n)
    {
      assert cgrib[..][j..j + 4] == [cgrib[j], cgrib[j + 1], cgrib[j + 2], cgrib[j + 3]];
      if cgrib[j] == 0x47 && cgrib[j + 1] == 0x52 && cgrib[j + 2] == 0x49 && cgrib[j + 3] == 0x42 {
        return j;
      }
      j := j + 1;
    }
    return -1;
  }

  /** `g2_getfld`, for any octets on which it ends. */
  method GetFld(cgrib: array<byte>, other: Unpacker, q: Request) returns (o: Outcome)
    requires Ends(cgrib[..], AnyTemplate(other), q)
    ensures o == GetFldOutcome(cgrib[..], AnyTemplate(other), q)
  {
    hide Bits, Dec, Step, FirstGrib, Trips, Ends, AnyTemplate;
    EndsExactly(cgrib[..], AnyTemplate(other), q);
    if q.ifldnum <= 0 { return Error(3); }
    if cgrib.Length < 4 { return Error(1); }
    var start := FindGrib(cgrib);
    if start == -1 { return Error(1); }
    if start + 16 > cgrib.Length { return Error(1); }
    var istart: nat := start;
    var ver := GetField(cgrib, 8 * istart + 56, 8);
    var lengrib := GetField(cgrib, 8 * istart + 96, 32);
    if ver != 2 { return Error(2); }
    var x, st := Extent(istart, lengrib), State(istart + 16, 0, false, EMPTY);
    ghost var left := Trips(Bits(cgrib[..]), q, st);
    while true
      invariant Loop(Bits(cgrib[..]), AnyTemplate(other), q, x, st, left)
             == GetFldOutcome(cgrib[..], AnyTemplate(other), q)
      decreases left
    {
      o := OneStep(cgrib, other, q, x, st);
      if !o.Going? { return; }
      st := o.st;
      left := left - 1;
    }
  }
}
