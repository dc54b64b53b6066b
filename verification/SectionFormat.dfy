/**
 * The sections of a GRIB2 message as bit strings: what the builder lays down for each kind of
 * content, what the readers make of a bit string that starts at a section, and that the second
 * undoes the first.
 */
module SectionFormat {
  import opened Options
  import opened Shifts
  import opened BitString
  import opened SignMagnitude
  import opened Templates

  // ----- lists of entries

  function EntryWidth(e: entry): (w: nat)
    ensures w % 8 == 0 && 8 <= w <= 32
  {
    if e > 0 then 8 * e else -8 * e
  }

  function EntryBits(e: entry, v: int): (s: seq<bit>)
    ensures |s| == EntryWidth(e)
  {
    if e > 0 then Enc(v, EntryWidth(e)) else SignedBits(v, EntryWidth(e))
  }

  function EntryValue(e: entry, s: seq<bit>): (v: int)
    requires |s| == EntryWidth(e)
  {
    if e > 0 then Dec(s) else SignedValue(s)
  }

  predicate InRange(e: entry, v: int)
  {
    if e > 0 then 0 <= v < Pow2(EntryWidth(e)) else Abs(v) < Pow2(EntryWidth(e) - 1)
  }

  lemma {:induction false} EntryRoundTrip(e: entry, v: int)
    requires InRange(e, v)
    ensures EntryValue(e, EntryBits(e, v)) == v
  {
    hide SignedBits, SignedValue, Pow2;
    var w := EntryWidth(e);
    if e > 0 {
      DecEnc(v, w);
      LowIdentity(v, w);
    } else {
      SignedRoundTrip(v, w);
    }
  }

  function ListBits(map_: seq<entry>, vs: seq<int>): (s: seq<bit>)
    requires |map_| == |vs|
    ensures |s| == ListWidth(map_)
  {
    if map_ == [] then [] else EntryBits(map_[0], vs[0]) + ListBits(map_[1..], vs[1..])
  }

  function ListWidth(map_: seq<entry>): (w: nat)
    ensures w % 8 == 0
  {
    hide EntryWidth;
    if map_ == [] then 0 else
    Whole(EntryWidth(map_[0]), ListWidth(map_[1..]));
    EntryWidth(map_[0]) + ListWidth(map_[1..])
  }

  predicate AllInRange(map_: seq<entry>, vs: seq<int>)
    requires |map_| == |vs|
  {
    forall i :: 0 <= i < |vs| ==> InRange(map_[i], vs[i])
  }

  /** The values of the entries from the front of s, and the rest. */
  function FetchList(s: seq<bit>, map_: seq<entry>): (r: Option<(seq<int>, seq<bit>)>)
    ensures r.Some? ==> |r.value.0| == |map_|
    decreases |map_|
  {
    if map_ == [] then Some(([], s)) else
    var w := EntryWidth(map_[0]);
    if w > |s| then None else
    var r := FetchList(s[w..], map_[1..]);
    if r.None? then None else Some(([EntryValue(map_[0], s[..w])] + r.value.0, r.value.1))
  }

  /** The entries can be read exactly when there are enough bits. */
  lemma {:induction false} Fetchable(s: seq<bit>, map_: seq<entry>)
    ensures FetchList(s, map_).Some? <==> |s| >= ListWidth(map_)
    decreases |map_|
  {
    hide EntryValue, EntryWidth;
    if map_ != [] {
      var w := EntryWidth(map_[0]);
      if w <= |s| { Fetchable(s[w..], map_[1..]); }
    }
  }

  lemma {:induction false} FetchNil(s: seq<bit>)
    ensures FetchList(s, []) == Some(([], s))
  {
  }

  lemma {:induction false} ListRoundTrip(map_: seq<entry>, vs: seq<int>, rest: seq<bit>)
    requires |map_| == |vs| && AllInRange(map_, vs)
    ensures FetchList(ListBits(map_, vs) + rest, map_) == Some((vs, rest))
  {
    hide ListBits, FetchList, EntryBits, EntryValue, InRange, ListWidth, EntryWidth;
    if map_ == [] {
      ListNil();
      assert [] + rest == rest;
      FetchNil(rest);
    } else {
      var e, t := EntryBits(map_[0], vs[0]), ListBits(map_[1..], vs[1..]);
      ListRoundTrip(map_[1..], vs[1..], rest);
      ListCons(map_, vs);
      Assoc(e, t, rest);
      EntryRoundTrip(map_[0], vs[0]);
      assert vs == [vs[0]] + vs[1..];
      FetchListCons(e, t + rest, map_, vs[1..], rest);
    }
  }

  lemma {:induction false} FetchListCons(e: seq<bit>, s: seq<bit>, map_: seq<entry>, tail: seq<int>, rest: seq<bit>)
    requires map_ != [] && |e| == EntryWidth(map_[0]) && FetchList(s, map_[1..]) == Some((tail, rest))
    ensures FetchList(e + s, map_) == Some(([EntryValue(map_[0], e)] + tail, rest))
  {
    hide EntryValue, EntryWidth;
    assert (e + s)[..|e|] == e && (e + s)[|e|..] == s;
  }

  lemma {:induction false} ListCons(m: seq<entry>, vs: seq<int>)
    requires |m| == |vs| > 0
    ensures ListBits(m, vs) == EntryBits(m[0], vs[0]) + ListBits(m[1..], vs[1..])
    ensures ListWidth(m) == EntryWidth(m[0]) + ListWidth(m[1..])
  {
  }

  lemma {:induction false} ListNil()
    ensures ListBits([], []) == [] && ListWidth([]) == 0
  {
  }

  lemma {:induction false} ListConcat(m: seq<entry>, n: seq<entry>, vs: seq<int>)
    requires |m| + |n| == |vs|
    ensures ListBits(m + n, vs) == ListBits(m, vs[..|m|]) + ListBits(n, vs[|m|..])
    ensures ListWidth(m + n) == ListWidth(m) + ListWidth(n)
  {
    hide *;
    if m == [] {
      assert m + n == n && vs[0..] == vs && vs[..0] == [];
      ListNil();
      assert [] + ListBits(n, vs) == ListBits(n, vs);
    } else {
      var us := vs[..|m|];
      ListConcat(m[1..], n, vs[1..]);
      assert us[1..] == vs[1..][..|m| - 1];
      assert vs[1..][|m| - 1..] == vs[|m|..];
      TailOfConcat(m, n);
      ListCons(m + n, vs);
      ListCons(m, us);
      Assoc(EntryBits(m[0], vs[0]), ListBits(m[1..], us[1..]), ListBits(n, vs[|m|..]));
    }
  }

  // ----- templates with their tails

  predicate Known(kind: Kind, number: int)
  {
    Lookup(kind, number).Some?
  }

  /** A list long enough for its own tail. */
  predicate Complete(kind: Kind, number: int, vs: seq<int>)
  {
    && Known(kind, number) && |Lookup(kind, number).value.map_| <= |vs|
    && |vs| == |Lookup(kind, number).value.map_| + |Tail(kind, number, vs)|
  }

  function FullMap(kind: Kind, number: int, vs: seq<int>): (m: seq<entry>)
    requires Known(kind, number) && |Lookup(kind, number).value.map_| <= |vs|
    ensures Complete(kind, number, vs) ==> |m| == |vs|
  {
    Lookup(kind, number).value.map_ + Tail(kind, number, vs)
  }

  datatype Got<+T> = Bad(ierr: int) | Got(value: T)

  /** The static entries, then the tail they ask for. */
  function FetchTemplate(kind: Kind, number: int, s: seq<bit>): (r: Got<(seq<int>, seq<bit>)>)
    ensures r.Got? ==> Known(kind, number) && Complete(kind, number, r.value.0)
  {
    if !Known(kind, number) then Bad(if kind == Representation then 7 else 5) else
    var map_ := Lookup(kind, number).value.map_;
    var a := FetchList(s, map_);
    if a.None? then Bad(2) else
    var ext := Tail(kind, number, a.value.0);
    var b := FetchList(a.value.1, ext);
    if b.None? then Bad(2) else
    TailFromStatic(kind, number, a.value.0 + b.value.0);
    assert (a.value.0 + b.value.0)[..|map_|] == a.value.0;
    Got((a.value.0 + b.value.0, b.value.1))
  }

  /** A template is read back whole, although its length is told only by its own values. */
  lemma {:induction false} TemplateRoundTrip(kind: Kind, number: int, vs: seq<int>, rest: seq<bit>)
    requires Complete(kind, number, vs) && AllInRange(FullMap(kind, number, vs), vs)
    ensures FetchTemplate(kind, number, ListBits(FullMap(kind, number, vs), vs) + rest) == Got((vs, rest))
  {
    hide Lookup, Tail, AllInRange, FetchList, ListBits, ListWidth;
    var map_, ext := Lookup(kind, number).value.map_, Tail(kind, number, vs);
    var m := |map_|;
    TailFromStatic(kind, number, vs);
    ListConcat(map_, ext, vs);
    Assoc(ListBits(map_, vs[..m]), ListBits(ext, vs[m..]), rest);
    InRangeParts(map_, ext, vs);
    ListRoundTrip(map_, vs[..m], ListBits(ext, vs[m..]) + rest);
    ListRoundTrip(ext, vs[m..], rest);
    assert vs[..m] + vs[m..] == vs;
  }

  lemma {:induction false} InRangeParts(m: seq<entry>, n: seq<entry>, vs: seq<int>)
    requires |m| + |n| == |vs| && AllInRange(m + n, vs)
    ensures AllInRange(m, vs[..|m|]) && AllInRange(n, vs[|m|..])
  {
    hide InRange;
    assert forall i :: 0 <= i < |m| ==> (m + n)[i] == m[i];
    assert forall i :: 0 <= i < |n| ==> (m + n)[|m| + i] == n[i] && vs[|m|..][i] == vs[|m| + i];
  }
}
