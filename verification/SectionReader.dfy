/** `g2_unpack1` to `g2_unpack6`: one section read from the octet array, with every length checked. */
module SectionReader {
  import opened Options
  import opened Shifts
  import opened BitString
  import opened BitIO
  import opened SignMagnitude
  import opened FieldIO
  import opened Templates
  import opened SectionFormat
  import opened Sections

  lemma {:induction false} FetchListStep(s: seq<bit>, p: nat, map_: seq<entry>)
    requires map_ != [] && p <= |s|
    ensures var w := EntryWidth(map_[0]);
      if p + w > |s| then FetchList(s[p..], map_) == None
      else
        var v := EntryValue(map_[0], s[p..p + w]);
        FetchList(s[p..], map_) == Prepend([v], FetchList(s[p + w..], map_[1..]))
  {
    hide EntryValue, EntryWidth;
    var w := EntryWidth(map_[0]);
    if p + w <= |s| {
      assert s[p..][..w] == s[p..p + w] && s[p..][w..] == s[p + w..];
    }
  }

  function Prepend(vs: seq<int>, r: Option<(seq<int>, seq<bit>)>): (q: Option<(seq<int>, seq<bit>)>)
  {
    if r.None? then None else Some((vs + r.value.0, r.value.1))
  }

  lemma {:induction false} PrependTwice(us: seq<int>, vs: seq<int>, r: Option<(seq<int>, seq<bit>)>)
    ensures Prepend(us, Prepend(vs, r)) == Prepend(us + vs, r) && Prepend([], r) == r
  {
    if r.Some? {
      Assoc(us, vs, r.value.0);
      assert [] + r.value.0 == r.value.0;
    }
  }

  method ReadEntry(cgrib: array<byte>, e: entry, iofst: nat) returns (v: int)
    requires iofst + EntryWidth(e) <= 8 * cgrib.Length
    ensures v == EntryValue(e, Bits(cgrib[..])[iofst..iofst + EntryWidth(e)])
  {
    hide Bits, Dec, SignedValue;
    var nbits := EntryWidth(e);
    if e > 0 {
      v := GetField(cgrib, iofst, nbits);
    } else {
      v := ReadSigned(cgrib, iofst, nbits);
    }
  }

  /** The loop over the entries of a template, or none of them when the octets run out. */
  method ReadList(cgrib: array<byte>, map_: seq<entry>, iofst0: nat) returns (ok: bool, vs: seq<int>, iofst: nat)
    requires iofst0 <= 8 * cgrib.Length
    ensures ok ==> iofst <= 8 * cgrib.Length && |vs| == |map_|
    ensures FetchList(Bits(cgrib[..])[iofst0..], map_) == if ok then Some((vs, Bits(cgrib[..])[iofst..])) else None
  {
    hide Bits, FetchList, EntryWidth, EntryValue, Prepend;
    ghost var s := Bits(cgrib[..]);
    ok, vs, iofst := true, [], iofst0;
    assert map_[0..] == map_;
    PrependTwice([], [], FetchList(s[iofst0..], map_));
    for i := 0 to |map_|
      invariant iofst <= |s| && |vs| == i
      invariant Prepend(vs, FetchList(s[iofst..], map_[i..])) == FetchList(s[iofst0..], map_)
    {
      assert map_[i..][1..] == map_[i + 1..];
      FetchListStep(s, iofst, map_[i..]);
      var nbits := EntryWidth(map_[i]);
      if iofst + nbits > 8 * cgrib.Length {
        PrependNone(vs);
        return false, vs, iofst;
      }
      var v := ReadEntry(cgrib, map_[i], iofst);
      PrependTwice(vs, [v], FetchList(s[iofst + nbits..], map_[i + 1..]));
      iofst := iofst + nbits;
      vs := vs + [v];
    }
    assert map_[|map_|..] == [];
    FetchNil(s[iofst..]);
    PrependDone(vs, s[iofst..]);
  }

  lemma {:induction false} PrependNone(vs: seq<int>)
    ensures Prepend(vs, None) == None
  {
  }

  lemma {:induction false} PrependDone(vs: seq<int>, s: seq<bit>)
    ensures Prepend(vs, Some(([], s))) == Some((vs, s))
  {
    assert vs + [] == vs;
  }

  /** A template and its tail. */
  method ReadTemplate(cgrib: array<byte>, kind: Kind, number: int, iofst0: nat) returns (r: Got<seq<int>>, iofst: nat)
    requires iofst0 <= 8 * cgrib.Length
    ensures r.Got? ==> iofst <= 8 * cgrib.Length && Complete(kind, number, r.value)
    ensures FetchTemplate(kind, number, Bits(cgrib[..])[iofst0..])
         == if r.Got? then Got((r.value, Bits(cgrib[..])[iofst..])) else Bad(r.ierr)
  {
    hide Bits, FetchList, Lookup, Tail;
    iofst := iofst0;
    if !Known(kind, number) { return Bad(if kind == Representation then 7 else 5), iofst; }
    var map_ := Lookup(kind, number).value.map_;
    var ok, vs, more;
    ok, vs, iofst := ReadList(cgrib, map_, iofst);
    if !ok { return Bad(2), iofst; }
    var ext := ExtendTemplate(kind, number, vs);
    ok, more, iofst := ReadList(cgrib, ext, iofst);
    if !ok { return Bad(2), iofst; }
    r := Got(vs + more);
    assert FetchTemplate(kind, number, Bits(cgrib[..])[iofst0..]) == Got((vs + more, Bits(cgrib[..])[iofst..]));
  }

  /** The length and number that every section starts with; no section when the octets run out. */
  method ReadHead(cgrib: array<byte>, iofst: nat) returns (ok: bool, lensec: nat, isecnum: nat)
    requires iofst <= 8 * cgrib.Length
    ensures var s := Bits(cgrib[..])[iofst..];
      && ok == (|s| >= 40)
      && (ok ==> lensec == Length(s) && isecnum == Dec(s[32..40]) && Bits(cgrib[..])[iofst + 40..] == s[40..])
  {
    hide Bits, Dec;
    ok, lensec, isecnum := iofst + 40 <= 8 * cgrib.Length, 0, 0;
    if ok {
      ghost var s := Bits(cgrib[..]);
      SliceOfTail(s, iofst, 0, 32);
      SliceOfTail(s, iofst, 32, 40);
      SliceOfTail(s, iofst, 40, |s| - iofst);
      lensec := GetField(cgrib, iofst, 32);
      isecnum := GetField(cgrib, iofst + 32, 8);
    }
  }

  method ReadIdentification(cgrib: array<byte>, iofst0: nat) returns (r: Got<seq<int>>)
    requires iofst0 <= 8 * cgrib.Length
    ensures r == Unpack1(Bits(cgrib[..])[iofst0..])
  {
    hide Bits, Dec, FetchList;
    var ok, lensec, isecnum := ReadHead(cgrib, iofst0);
    if !ok || isecnum != 1 { return Bad(2); }
    var ids, iofst;
    ok, ids, iofst := ReadList(cgrib, IDENT, iofst0 + 40);
    r := if ok then Got(ids) else Bad(2);
  }

  method ReadLocal(cgrib: array<byte>, iofst: nat) returns (r: Got<seq<nat>>)
    requires iofst <= 8 * cgrib.Length
    ensures r == Unpack2(Bits(cgrib[..])[iofst..])
  {
    hide Bits, Dec, DecAll;
    var ok, lensec, isecnum := ReadHead(cgrib, iofst);
    if !ok || isecnum != 2 { return Bad(2); }
    var n := if lensec < 5 then 0 else lensec - 5;
    if iofst + 40 + n * 8 > 8 * cgrib.Length { return Bad(2); }
    var csec2 := GbitsRun(cgrib, iofst + 40, 8, n);
    r := Got(csec2);
  }

  method ReadOptional(cgrib: array<byte>, igds: seq<int>, gtmpl: seq<int>, left: int, iofst: nat)
    returns (r: Got<GridRecord>)
    requires |igds| == 5 && igds[2] >= 0 && iofst <= 8 * cgrib.Length
    ensures r == OptionalPart(igds, gtmpl, left, Bits(cgrib[..])[iofst..])
  {
    hide Bits, DecAll, Truncated;
    if igds[2] == 0 { return Got(GridRecord(igds, gtmpl, [])); }
    if left < igds[2] { return Bad(6); }
    var nbits := 8 * igds[2];
    var idefnum := Truncated(left, igds[2]);
    if iofst + idefnum * nbits > 8 * cgrib.Length { return Bad(2); }
    var ideflist := GbitsRun(cgrib, iofst, nbits, idefnum);
    r := Got(GridRecord(igds, gtmpl, ideflist));
  }

  lemma {:induction false} UnsignedEntries(s: seq<bit>, map_: seq<entry>, i: nat)
    requires FetchList(s, map_).Some? && i < |map_| && map_[i] > 0
    ensures FetchList(s, map_).value.0[i] >= 0
    decreases |map_|
  {
    hide Dec, SignedValue;
    if i > 0 { UnsignedEntries(s[EntryWidth(map_[0])..], map_[1..], i - 1); }
  }

  method ReadGrid(cgrib: array<byte>, iofst0: nat) returns (r: Got<GridRecord>)
    requires iofst0 <= 8 * cgrib.Length
    ensures r == Unpack3(Bits(cgrib[..])[iofst0..])
  {
    hide Bits, Dec, FetchList, FetchTemplate, OptionalPart, ListWidth, Lookup, Tail;
    ghost var s := Bits(cgrib[..]);
    var ok, lensec, isecnum := ReadHead(cgrib, iofst0);
    if !ok || isecnum != 3 { return Bad(2); }
    var igds, iofst;
    ok, igds, iofst := ReadList(cgrib, GDS, iofst0 + 40);
    if !ok { return Bad(2); }
    UnsignedEntries(s[iofst0 + 40..], GDS, 2);
    var left: int := lensec;
    if igds[4] != 65535 {
      var t;
      t, iofst := ReadTemplate(cgrib, Grid, igds[4], iofst);
      if t.Bad? { return Bad(t.ierr); }
      var ibyttem := ListWidth(FullMap(Grid, igds[4], t.value)) / 8;
      r := ReadOptional(cgrib, igds, t.value, left - 14 - ibyttem, iofst);
    } else {
      r := ReadOptional(cgrib, igds, [], left - 14, iofst);
    }
  }

  method ReadProduct(cgrib: array<byte>, iofst0: nat) returns (r: Got<ProductRecord>)
    requires iofst0 <= 8 * cgrib.Length
    ensures r == Unpack4(Bits(cgrib[..])[iofst0..])
  {
    hide Bits, Dec, FetchList, FetchTemplate, DecAll, Complete;
    ghost var s := Bits(cgrib[..]);
    var ok, lensec, isecnum := ReadHead(cgrib, iofst0);
    if !ok || isecnum != 4 { return Bad(2); }
    var vs, iofst, t;
    ok, vs, iofst := ReadList(cgrib, PDS, iofst0 + 40);
    if !ok { return Bad(2); }
    UnsignedEntries(s[iofst0 + 40..], PDS, 0);
    var numcoord := vs[0];
    t, iofst := ReadTemplate(cgrib, Product, vs[1], iofst);
    if t.Bad? { return Bad(t.ierr); }
    if iofst + numcoord * 32 > 8 * cgrib.Length { return Bad(2); }
    var coordieee := GbitsRun(cgrib, iofst, 32, numcoord);
    r := Got(ProductRecord(vs[1], t.value, coordieee));
  }

  method ReadRepresentation(cgrib: array<byte>, iofst0: nat) returns (r: Got<DataRecord>)
    requires iofst0 <= 8 * cgrib.Length
    ensures r == Unpack5(Bits(cgrib[..])[iofst0..])
  {
    hide Bits, Dec, FetchList, FetchTemplate, Complete;
    var ok, lensec, isecnum := ReadHead(cgrib, iofst0);
    if !ok || isecnum != 5 { return Bad(2); }
    var vs, iofst, t;
    ok, vs, iofst := ReadList(cgrib, DRS, iofst0 + 40);
    if !ok { return Bad(2); }
    t, iofst := ReadTemplate(cgrib, Representation, vs[1], iofst);
    if t.Bad? { return Bad(t.ierr); }
    r := Got(DataRecord(vs[0], vs[1], t.value));
  }

  method ReadBitmap(cgrib: array<byte>, iofst: nat, ngpts: int) returns (r: Got<(int, seq<int>)>)
    requires iofst <= 8 * cgrib.Length
    ensures r == Unpack6(Bits(cgrib[..])[iofst..], ngpts)
  {
    hide Bits, Dec, DecAll;
    ghost var s := Bits(cgrib[..]);
    var ok, lensec, isecnum := ReadHead(cgrib, iofst);
    if !ok || isecnum != 6 { return Bad(2); }
    if iofst + 48 > 8 * cgrib.Length { return Bad(2); }
    SliceOfTail(s, iofst, 40, 48);
    SliceOfTail(s, iofst, 48, |s| - iofst);
    var ibmap := GetField(cgrib, iofst + 40, 8);
    if ibmap != 0 { return Got((ibmap, [])); }
    if ngpts <= 0 { return Bad(6); }
    if iofst + 48 + ngpts * 1 > 8 * cgrib.Length { return Bad(2); }
    var intbmap := GbitsRun(cgrib, iofst + 48, 1, ngpts);
    r := Got((ibmap, intbmap));
  }
}
