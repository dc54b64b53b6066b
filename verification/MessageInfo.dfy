/** `g2_info`: validating a message and counting its sections, through a buffer with a cursor. */
module MessageInfo {
  import opened Options
  import opened Shifts
  import opened BitString
  import opened BitIO
  import opened Templates
  import opened SectionFormat
  import opened Sections
  import opened Message
  import opened MessageBuilder
  import opened MessageWalk
  import opened SectionReader

  // ----- the buffer

  /** How many of the characters match from index i on. */
  ghost function Matching(a: seq<byte>, i: nat, chars: seq<byte>): (j: nat)
    requires i + |chars| <= |a|
    ensures j <= |chars|
    decreases |chars|
  {
    if chars == [] || a[i] != chars[0] then 0 else 1 + Matching(a, i + 1, chars[1..])
  }

  class ByteBuf {
    const buf: array<byte>
    var cursor: nat

    ghost predicate Valid()
      reads this
    {
      cursor <= buf.Length
    }

    constructor (buf: array<byte>)
      ensures Valid() && this.buf == buf && cursor == 0
    {
      this.buf := buf;
      cursor := 0;
    }

    function Remaining(): (n: nat)
      requires Valid()
      reads this
      ensures cursor + n == buf.Length
    {
      buf.Length - cursor
    }

    method Skip(nbytes: int) returns (ok: bool)
      requires Valid()
      modifies this
      ensures Valid() && ok == (0 <= old(cursor) + nbytes <= buf.Length)
      ensures cursor == if ok then old(cursor) + nbytes else old(cursor)
    {
      var newCursor := cursor + nbytes;
      ok := !(0 > newCursor || buf.Length < newCursor);
      if ok { cursor := newCursor; }
    }

    method SetCursor(c: nat) returns (ok: bool)
      requires Valid()
      modifies this
      ensures Valid() && ok == (c <= buf.Length) && cursor == if ok then c else old(cursor)
    {
      ok := c <= buf.Length;
      if ok { cursor := c; }
    }

    /** The next octets as one integer. */
    method GetInt(nbytes: nat) returns (ok: bool, value: nat)
      requires Valid() && nbytes >= 1
      modifies this
      ensures Valid() && ok == (old(cursor) + nbytes <= buf.Length)
      ensures cursor == if ok then old(cursor) + nbytes else old(cursor)
      ensures ok ==> value == Dec(Bits(buf[..])[8 * old(cursor)..8 * old(cursor) + 8 * nbytes])
    {
      ok, value := cursor + nbytes <= buf.Length, 0;
      if ok {
        value := GetField(buf, 8 * cursor, 8 * nbytes);
        cursor := cursor + nbytes;
      }
    }

    /** Several integers of the same size. */
    method GetInts(nbytes: nat, nvalues: nat) returns (ok: bool, values: seq<nat>)
      requires Valid() && nbytes >= 1
      modifies this
      ensures Valid() && ok == (old(cursor) + nvalues * nbytes <= buf.Length)
      ensures cursor == if ok then old(cursor) + nvalues * nbytes else old(cursor)
      ensures ok ==> nvalues * (8 * nbytes) <= 8 * (buf.Length - old(cursor))
      ensures ok ==> values == DecAll(Bits(buf[..])[8 * old(cursor)..], 8 * nbytes, nvalues)
    {
      hide Bits, DecAll;
      MulLe(0, nvalues, nbytes);
      assert nvalues * (8 * nbytes) == 8 * (nvalues * nbytes);
      var length := nvalues * nbytes;
      ok, values := cursor + length <= buf.Length, [];
      if ok {
        values := GbitsRun(buf, 8 * cursor, 8 * nbytes, nvalues);
        cursor := cursor + length;
      }
    }

    /**
     * Moves the cursor to the first place, among nbytes octets, where as many characters match as
     * the place's own index says, which is what the original compares.  Its bound is unsigned:
     * with too few octets to search it wraps, which at the start of the buffer does not matter.
     */
    method Find(chars: seq<byte>, nbytes: nat) returns (ok: bool)
      requires Valid() && (cursor == 0 || |chars| <= cursor + nbytes)
      modifies this
      ensures Valid()
      ensures Compared(buf[..], old(cursor), chars, nbytes) == if ok then Some(cursor) else None
      ensures !ok ==> cursor == old(cursor)
    {
      hide Matching;
      if |chars| == 0 || Remaining() < |chars| { return false; }
      var start := cursor;
      var n := if Remaining() < nbytes then Remaining() else nbytes;
      var last := Unsigned64(start + n - |chars|);
      var i := start;
      while i <= last
        invariant start <= i && cursor == start && (start == 0 ==> i == 0)
        invariant start > 0 ==>
          ComparedFrom(buf[..], i, start + n - |chars|, chars)
          == ComparedFrom(buf[..], start, start + n - |chars|, chars)
        decreases last - i
      {
        var j := CountMatching(buf, i, chars);
        if j >= i {
          cursor := i;
          return true;
        }
        i := i + 1;
      }
      ok := false;
    }
  }

  /** What the bound of the search comes to as a `size_t`; no buffer is 2^64 octets long. */
  function Unsigned64(n: int): (m: nat)
  {
    if n < 0 then n % 0x1_0000_0000_0000_0000 else n
  }

  /** The first place from i to last where as many characters match as its index says. */
  ghost function ComparedFrom(a: seq<byte>, i: nat, last: int, chars: seq<byte>): (r: Option<nat>)
    requires last + |chars| <= |a|
    decreases last - i
  {
    hide Matching;
    if i > last then None else if Matching(a, i, chars) >= i then Some(i) else ComparedFrom(a, i + 1, last, chars)
  }

  /** What the comparison of the original finds from place start on. */
  ghost function Compared(a: seq<byte>, start: nat, chars: seq<byte>, nbytes: nat): (r: Option<nat>)
    requires start <= |a|
  {
    var n := if |a| - start < nbytes then |a| - start else nbytes;
    if chars == [] || |a| - start < |chars| then None
    else if start == 0 then Some(0)
    else ComparedFrom(a, start, start + n - |chars|, chars)
  }

  /** The first place from i to last where the characters stand. */
  ghost function StandsFrom(a: seq<byte>, i: nat, last: int, chars: seq<byte>): (r: Option<nat>)
    requires last + |chars| <= |a|
    ensures r.Some? ==> i <= r.value <= last && a[r.value..r.value + |chars|] == chars
    decreases last - i
  {
    if i > last then None else if a[i..i + |chars|] == chars then Some(i) else StandsFrom(a, i + 1, last, chars)
  }

  /** What the original's comment promises. */
  ghost function Promised(a: seq<byte>, start: nat, chars: seq<byte>, nbytes: nat): (r: Option<nat>)
    requires start <= |a|
  {
    var n := if |a| - start < nbytes then |a| - start else nbytes;
    if chars == [] || |a| - start < |chars| then None else StandsFrom(a, start, start + n - |chars|, chars)
  }

  lemma {:induction false} MatchingAll(a: seq<byte>, i: nat, chars: seq<byte>)
    requires i + |chars| <= |a|
    ensures Matching(a, i, chars) == |chars| <==> a[i..i + |chars|] == chars
    decreases |chars|
  {
    if chars != [] {
      MatchingAll(a, i + 1, chars[1..]);
      var b := a[i..i + |chars|];
      assert b[1..] == a[i + 1..i + 1 + |chars[1..]|];
      assert b == [b[0]] + b[1..] && chars == [chars[0]] + chars[1..];
    }
  }

  /** At the start of a buffer the promise is kept exactly when the characters stand there or have no room. */
  lemma {:induction false} FoundAtStart(a: seq<byte>, chars: seq<byte>, nbytes: nat)
    requires chars != []
    ensures Compared(a, 0, chars, nbytes) == Promised(a, 0, chars, nbytes) <==>
      |a| < |chars| || (|chars| <= nbytes && a[..|chars|] == chars)
  {
    if |a| >= |chars| {
      var n := if |a| < nbytes then |a| else nbytes;
      assert a[0..0 + |chars|] == a[..|chars|];
    }
  }

  /** Behind as many octets as there are characters nothing is ever found: right exactly when there is nothing. */
  lemma {:induction false} NothingBehind(a: seq<byte>, start: nat, chars: seq<byte>, nbytes: nat)
    requires |chars| < start <= |a| && |chars| <= nbytes
    ensures Compared(a, start, chars, nbytes).None?
  {
    hide Matching;
    var n := if |a| - start < nbytes then |a| - start else nbytes;
    if chars != [] && |a| - start >= |chars| { NothingFrom(a, start, start + n - |chars|, chars); }
  }

  lemma {:induction false} NothingFrom(a: seq<byte>, i: nat, last: int, chars: seq<byte>)
    requires last + |chars| <= |a| && |chars| < i
    ensures ComparedFrom(a, i, last, chars).None?
    decreases last - i
  {
    hide Matching;
    if i <= last { NothingFrom(a, i + 1, last, chars); }
  }

  /** No place from i on, before stop, has as many matching characters as its index says. */
  ghost predicate NoneShort(a: seq<byte>, i: nat, stop: int, chars: seq<byte>)
    requires stop + |chars| <= |a| + 1
  {
    hide Matching;
    forall k :: i <= k < stop ==> Matching(a, k, chars) < k
  }

  /**
   * In between, the promise is kept exactly when the characters first stand no further than their
   * number from the start of the buffer, or nowhere, and no place before has a match as long as
   * its own index.
   */
  lemma {:induction false} FoundBetween(a: seq<byte>, i: nat, last: int, chars: seq<byte>)
    requires 0 < i && last + |chars| <= |a| && chars != []
    ensures var p := StandsFrom(a, i, last, chars);
      ComparedFrom(a, i, last, chars) == p <==>
        (p.Some? ==> p.value <= |chars|) && NoneShort(a, i, if p.Some? then p.value else last + 1, chars)
    decreases last - i
  {
    hide Matching;
    if i <= last {
      MatchingAll(a, i, chars);
      FoundBetween(a, i + 1, last, chars);
      StandsAfter(a, i + 1, last, chars);
    }
  }

  lemma {:induction false} StandsAfter(a: seq<byte>, i: nat, last: int, chars: seq<byte>)
    requires last + |chars| <= |a|
    ensures ComparedFrom(a, i, last, chars).Some? ==> ComparedFrom(a, i, last, chars).value >= i
    decreases last - i
  {
    hide Matching;
    if i <= last { StandsAfter(a, i + 1, last, chars); }
  }

  method CountMatching(buf: array<byte>, i: nat, chars: seq<byte>) returns (j: nat)
    requires i + |chars| <= buf.Length
    ensures j == Matching(buf[..], i, chars)
  {
    j := 0;
    assert chars[0..] == chars;
    while j < |chars|
      invariant j <= |chars| && j + Matching(buf[..], i + j, chars[j..]) == Matching(buf[..], i, chars)
    {
      assert chars[j..][1..] == chars[j + 1..];
      if buf[i + j] != chars[j] { return; }
      j := j + 1;
    }
  }

  // ----- the specification

  datatype Info = Refused(ierr: int) | Accepted(disc: int, lengrib: int, ids: seq<int>, numlocal: nat, numfields: nat)

  /** Sections from octet p on: valid numbers and lengths up to the end section. */
  ghost function Rest(s: seq<bit>, p: nat, numlocal: nat, numfields: nat): (r: Got<(nat, nat)>)
    decreases |s| - 8 * p
  {
    if 8 * p + 32 > |s| then (if 8 * p + 8 <= |s| then Bad(5) else Got((numlocal, numfields)))
    else if s[8 * p..8 * p + 32] == Bits(SEVENS) then (if 8 * p + 40 <= |s| then Bad(4) else Got((numlocal, numfields)))
    else
      var lensec := Dec(s[8 * p..8 * p + 32]);
      if lensec < 5 || 8 * p + 8 * lensec > |s| then Bad(7)
      else
        var isecnum := Dec(s[8 * p + 32..8 * p + 40]);
        if isecnum < 2 || isecnum > 7 then Bad(6)
        else Rest(s, p + lensec, numlocal + (if isecnum == 2 then 1 else 0), numfields + if isecnum == 4 then 1 else 0)
  }

  ghost function InfoOf(s: seq<bit>): (r: Info)
  {
    hide Rest, FetchList;
    if |s| < 32 then Refused(1)
    else if |s| < 128 then Refused(8)
    else
      var lengrib := Dec(s[96..128]);
      if 8 * lengrib > |s| then Refused(7)
      else if Dec(s[56..64]) != 2 then Refused(2)
      else if |s| < 160 then Refused(8)
      else
        var lensec := Dec(s[128..160]);
        if lensec < 16 || 128 + 8 * lensec > |s| then Refused(7)
        else if Dec(s[160..168]) != 1 then Refused(3)
        else
          var ids := FetchList(s[168..], IDENT);
          if ids.None? then Refused(8)
          else
            var r := Rest(s, 16 + lensec, 0, 0);
            if r.Bad? then Refused(r.ierr) else Accepted(Dec(s[48..56]), lengrib, ids.value.0, r.value.0, r.value.1)
  }

  // ----- the routine

  /** Integers of the given numbers of octets. */
  method ReadInts(bb: ByteBuf, map_: seq<entry>) returns (ok: bool, vs: seq<int>)
    requires bb.Valid() && forall i :: 0 <= i < |map_| ==> map_[i] > 0
    modifies bb
    ensures bb.Valid()
    ensures var f := FetchList(Bits(bb.buf[..])[8 * old(bb.cursor)..], map_); ok == f.Some? && (ok ==> vs == f.value.0)
  {
    hide Bits, FetchList, Prepend, Dec, EntryValue, EntryWidth;
    ghost var s, p := Bits(bb.buf[..]), 8 * bb.cursor;
    ok, vs := true, [];
    assert map_[0..] == map_;
    PrependTwice([], [], FetchList(s[p..], map_));
    for i := 0 to |map_|
      invariant bb.Valid() && Bits(bb.buf[..]) == s
      invariant Prepend(vs, FetchList(s[8 * bb.cursor..], map_[i..])) == FetchList(s[p..], map_)
    {
      assert map_[i..][1..] == map_[i + 1..];
      var c := bb.cursor;
      FetchListStep(s, 8 * c, map_[i..]);
      Unsigned(s, 8 * c, map_[i]);
      var v;
      ok, v := bb.GetInt(map_[i]);
      if !ok {
        PrependNone(vs);
        return;
      }
      PrependTwice(vs, [v], FetchList(s[8 * bb.cursor..], map_[i + 1..]));
      vs := vs + [v];
    }
    assert map_[|map_|..] == [];
    FetchNil(s[8 * bb.cursor..]);
    PrependDone(vs, s[8 * bb.cursor..]);
  }

  lemma {:induction false} Unsigned(s: seq<bit>, p: nat, e: entry)
    requires e > 0
    ensures EntryWidth(e) == 8 * e && (p + 8 * e <= |s| ==> EntryValue(e, s[p..p + 8 * e]) == Dec(s[p..p + 8 * e]))
  {
    hide Dec;
  }

  lemma {:induction false} FourSevens(a: seq<byte>, p: nat, vs: seq<nat>)
    requires p + 4 <= |a| && 4 * 8 <= |Bits(a)[8 * p..]| && vs == DecAll(Bits(a)[8 * p..], 8, 4)
    ensures vs == SEVENS <==> Bits(a)[8 * p..8 * p + 32] == Bits(SEVENS)
  {
    hide Bits, DecAll;
    BitsSlice(a, p, p + 4);
    var b := a[p..p + 4];
    OctetsFit(b);
    RunRead(b, 8, Bits(a)[8 * p + 32..]);
    assert Bits(a)[8 * p..] == Bits(a)[8 * p..8 * p + 32] + Bits(a)[8 * p + 32..];
    BitsAre(b);
    if Bits(b) == Bits(SEVENS) { BitsInjective(b, SEVENS); }
  }

  lemma {:induction false} BitsAre(b: seq<byte>)
    ensures Bits(b) == EncAll(b, 8)
  {
  }

  /** The loop over the sections after the first. */
  method ReadRest(bb: ByteBuf, start: nat) returns (r: Got<(nat, nat)>)
    requires bb.Valid() && bb.cursor == start
    modifies bb
    ensures r == Rest(Bits(bb.buf[..]), start, 0, 0)
  {
    hide Bits, Dec, DecAll;
    ghost var s, a := Bits(bb.buf[..]), bb.buf[..];
    var sectionStart, numlocal, numfields := start, 0, 0;
    while bb.Remaining() >= 4
      invariant bb.Valid() && bb.cursor == sectionStart && bb.buf[..] == a
      invariant Rest(s, sectionStart, numlocal, numfields) == Rest(s, start, 0, 0)
      decreases bb.buf.Length - sectionStart
    {
      var ok, sevens := bb.GetInts(1, 4);
      FourSevens(a, sectionStart, sevens);
      if sevens == SEVENS {
        if bb.Remaining() != 0 { return Bad(4); }
        return Got((numlocal, numfields));
      }
      ok := bb.SetCursor(sectionStart);
      var remaining := bb.Remaining();
      var lensec, isecnum;
      ok, lensec := bb.GetInt(4);
      if 5 > lensec || remaining < lensec { return Bad(7); }
      ok, isecnum := bb.GetInt(1);
      if isecnum < 2 || isecnum > 7 { return Bad(6); }
      if isecnum == 2 { numlocal := numlocal + 1; }
      if isecnum == 4 { numfields := numfields + 1; }
      sectionStart := sectionStart + lensec;
      ok := bb.SetCursor(sectionStart);
    }
    if bb.Remaining() != 0 { return Bad(5); }
    r := Got((numlocal, numfields));
  }

  /** `g2_info` on any octets. */
  method GetInfo(cgrib: array<byte>) returns (r: Info)
    ensures r == InfoOf(Bits(cgrib[..]))
  {
    hide Bits, Dec, FetchList, Rest, Matching;
    var bb := new ByteBuf(cgrib);
    var ok, disc, edition, lengrib, lensec, isecnum, ids;
    ok := bb.Find(GRIB, 100);
    if !ok { return Refused(1); }
    var remaining := bb.Remaining();
    ok := bb.Skip(6);
    if !ok { return Refused(8); }
    ok, disc := bb.GetInt(1);
    if !ok { return Refused(8); }
    ok, edition := bb.GetInt(1);
    if !ok { return Refused(8); }
    ok := bb.Skip(4);
    if !ok { return Refused(8); }
    ok, lengrib := bb.GetInt(4);
    if !ok { return Refused(8); }
    if lengrib > remaining { return Refused(7); }
    if edition != 2 { return Refused(2); }
    remaining := bb.Remaining();
    ok, lensec := bb.GetInt(4);
    if !ok { return Refused(8); }
    if 16 > lensec || remaining < lensec { return Refused(7); }
    ok, isecnum := bb.GetInt(1);
    if !ok { return Refused(8); }
    if isecnum != 1 { return Refused(3); }
    ok, ids := ReadInts(bb, IDENT);
    if !ok { return Refused(8); }
    ok := bb.SetCursor(16 + lensec);
    var t := ReadRest(bb, 16 + lensec);
    if t.Bad? { return Refused(t.ierr); }
    r := Accepted(disc, lengrib, ids, t.value.0, t.value.1);
  }

  // ----- agreement with the builder

  lemma {:induction false} CountFrom(cs: seq<section>, i: nat)
    requires i < |cs|
    ensures Sections2(cs[i..]) == (if cs[i].Local? then 1 else 0) + Sections2(cs[i + 1..])
    ensures Sections4(cs[i..]) == (if cs[i].ProductDefinition? then 1 else 0) + Sections4(cs[i + 1..])
  {
    hide Formed;
    assert cs[i..][1..] == cs[i + 1..];
  }

  lemma {:induction false} RestAtEnd(s: seq<bit>, m: Msg, numlocal: nat, numfields: nat)
    requires s == MsgBits(m) && m.ended
    ensures Rest(s, Offset(m, |m.secs|), numlocal, numfields) == Got((numlocal, numfields))
  {
    hide Dec, HeadBits, AllBits, Enc, AllOctets, Bits;
    assert m.secs[..|m.secs|] == m.secs;
    var p := 8 * Offset(m, |m.secs|);
    assert |s| == p + 32;
    assert s[p..p + 32] == s[p..] == EndBits(true);
  }

  lemma {:induction false} RestStep(s: seq<bit>, p: nat, len: nat, number: nat, numlocal: nat, numfields: nat)
    requires 5 <= len < 0x3737_3737 && 8 * p + 8 * len <= |s| && 2 <= number <= 7
    requires Dec(s[8 * p..8 * p + 32]) == len && Dec(s[8 * p + 32..8 * p + 40]) == number
    ensures Rest(s, p, numlocal, numfields)
         == Rest(s, p + len, numlocal + (if number == 2 then 1 else 0), numfields + if number == 4 then 1 else 0)
  {
    hide Bits, Dec;
    SevensValue();
  }

  lemma {:induction false} RestFrom(s: seq<bit>, m: Msg, i: nat, numlocal: nat, numfields: nat)
    requires s == MsgBits(m) && Ordered(m) && m.ended && Total(m) < MAXLEN && 1 <= i <= |m.secs|
    ensures Rest(s, Offset(m, i), numlocal, numfields)
         == Got((numlocal + Sections2(m.secs[i..]), numfields + Sections4(m.secs[i..])))
    decreases |m.secs| - i
  {
    hide *;
    if i == |m.secs| {
      assert m.secs[i..] == [];
      NoSections();
      RestAtEnd(s, m, numlocal, numfields);
    } else {
      var c := m.secs[i];
      assert s[..8 * Total(m)] == s;
      var rest := FromSection(s, m, i);
      Bounded(m);
      Fields(s, 8 * Offset(m, i), c, rest);
      LaterSection(m, i);
      NumberTells(c);
      CountFrom(m.secs, i);
      RestStep(s, Offset(m, i), Octets(c), Number(c), numlocal, numfields);
      RestFrom(s, m, i + 1, numlocal + (if c.Local? then 1 else 0), numfields + if c.ProductDefinition? then 1 else 0);
    }
  }

  lemma {:induction false} NumberTells(c: section)
    ensures (Number(c) == 2 <==> c.Local?) && (Number(c) == 4 <==> c.ProductDefinition?) && Octets(c) >= 5
  {
    hide Formed, Body;
  }

  lemma {:induction false} Bounded(m: Msg)
    requires Total(m) < MAXLEN
    ensures Total(m) < 0x1_0000_0000 && Total(m) < 0x3737_3737
  {
    hide Total;
  }

  lemma {:induction false} NoSections()
    ensures Sections2([]) == 0 && Sections4([]) == 0
  {
  }

  lemma {:induction false} LaterSection(m: Msg, i: nat)
    requires Ordered(m) && 1 <= i < |m.secs|
    ensures 2 <= Number(m.secs[i]) <= 7
  {
    assert Follows(Number(m.secs[i - 1]), Number(m.secs[i]));
  }

  /** A finished message of exactly its own length is accepted, and its sections are counted right. */
  lemma {:induction false} FinishedIsAccepted(m: Msg)
    requires Ordered(m) && m.ended && Total(m) < MAXLEN && 0 <= m.disc < 256 && Storable(m.secs[0])
    ensures InfoOf(MsgBits(m)) == Accepted(m.disc, Total(m), m.secs[0].list, Sections2(m.secs), Sections4(m.secs))
  {
    hide *;
    FirstSection(m);
    var s, c := MsgBits(m), m.secs[0];
    InfoHead(m);
    NothingBefore(m);
    assert s[..8 * Total(m)] == s;
    var rest := FromSection(s, m, 0);
    IdentIs(c);
    Fields(s, 128, c, rest);
    RestFrom(s, m, 1, 0, 0);
    CountFrom(m.secs, 0);
    assert m.secs[0..] == m.secs;
    IdsRead(s, c, rest);
    InfoIs(s);
  }

  lemma {:induction false} FirstSection(m: Msg)
    requires Ordered(m)
    ensures |m.secs| >= 1 && m.secs[0].Identification? && Number(m.secs[0]) == 1
  {
  }

  lemma {:induction false} InfoIs(s: seq<bit>)
    requires |s| >= 168 && 8 * Dec(s[96..128]) <= |s| && Dec(s[56..64]) == 2 && Dec(s[160..168]) == 1
    requires 16 <= Dec(s[128..160]) && 128 + 8 * Dec(s[128..160]) <= |s| && FetchList(s[168..], IDENT).Some?
    requires Rest(s, 16 + Dec(s[128..160]), 0, 0).Got?
    ensures var r := Rest(s, 16 + Dec(s[128..160]), 0, 0).value;
      InfoOf(s) == Accepted(Dec(s[48..56]), Dec(s[96..128]), FetchList(s[168..], IDENT).value.0, r.0, r.1)
  {
    hide Dec, Rest, FetchList;
  }

  /** The same of the octet array that the builder left. */
  method GetBuiltInfo(cgrib: array<byte>, ghost m: Msg) returns (r: Info)
    requires Stands(cgrib, m) && cgrib.Length == Total(m)
    requires Ordered(m) && m.ended && 0 <= m.disc < 256 && Storable(m.secs[0])
    ensures r == Accepted(m.disc, Total(m), m.secs[0].list, Sections2(m.secs), Sections4(m.secs))
  {
    hide Bits, MsgBits, Total, Ordered, Sections2, Sections4, Storable, Formed, InfoOf;
    r := GetInfo(cgrib);
    FinishedIsAccepted(m);
    assert Bits(cgrib[..])[..8 * Total(m)] == Bits(cgrib[..]);
  }

  lemma {:induction false} InfoHead(m: Msg)
    requires Total(m) < MAXLEN && 0 <= m.disc < 256
    ensures var s := MsgBits(m);
      |s| >= 128 && Dec(s[48..56]) == m.disc && Dec(s[56..64]) == 2 && Dec(s[96..128]) == Total(m)
  {
    hide Dec, Enc, AllBits, EndBits, AllOctets, Pow2, Bits;
    var s := MsgBits(m);
    assert s[48..56] == Enc(m.disc, 8) && s[56..64] == Enc(2, 8) && s[96..128] == Enc(Total(m), 32);
    DecByte(m.disc);
    DecByte(2);
    DecEnc(Total(m), 32);
    Pow2Exceeds32();
    LowIdentity(Total(m), 32);
  }

  lemma {:induction false} IdsRead(s: seq<bit>, c: section, rest: seq<bit>)
    requires c.Identification? && Storable(c) && |s| >= 168 && s[128..] == SectionBits(c) + rest
    ensures FetchList(s[168..], IDENT).Some? && FetchList(s[168..], IDENT).value.0 == c.list
  {
    hide SectionBits, FetchList, Pow2, IsSection, Dec, Octets, Formed, AllInRange;
    Pow2Exceeds32();
    IdentIs(c);
    Read1(c, rest);
    assert s[128..][40..] == s[168..];
  }

  /** What `g2_create` leaves. */
  ghost function Created(disc: int, c: section): (m: Msg)
    requires c.Identification?
    ensures Ordered(m)
  {
    Msg(disc, [c], false)
  }

  /**
   * From a message just created, over any run of calls that ends it: the fields and local
   * sections counted are the calls that were accepted.
   */
  lemma {:induction false} RunIsCounted(disc: int, c: section, calls: seq<Call>)
    requires c.Identification? && 0 <= disc < 256 && Storable(c) && AllSane(calls)
    requires Run(Created(disc, c), calls).ended && Total(Run(Created(disc, c), calls)) < MAXLEN
    ensures var m0 := Created(disc, c);
      var m := Run(m0, calls);
      InfoOf(MsgBits(m)) == Accepted(disc, Total(m), c.list, AcceptedLocals(m0, calls), AcceptedFields(m0, calls))
  {
    hide Ordered, AllSane, Run, AcceptedLocals, AcceptedFields, InfoOf, MsgBits, Total, Sections2, Sections4, Storable,
         Formed;
    var m0 := Created(disc, c);
    RunExtends(m0, calls);
    RunCounts(m0, calls);
    CountOne(c);
    FinishedIsAccepted(Run(m0, calls));
  }

  /** Where `g2_info` finds no fault, no section has length 0. */
  lemma {:induction false} RestNoneEmpty(s: seq<bit>, p: nat, numlocal: nat, numfields: nat)
    requires Rest(s, p, numlocal, numfields).Got?
    ensures NoneEmpty(s, p)
    decreases |s| - 8 * p
  {
    hide Dec, Bits;
    if 8 * p + 40 <= |s| && s[8 * p..8 * p + 32] != Bits(SEVENS) {
      var lensec, isecnum := Dec(s[8 * p..8 * p + 32]), Dec(s[8 * p + 32..8 * p + 40]);
      RestNoneEmpty(s, p + lensec, numlocal + (if isecnum == 2 then 1 else 0),
                    numfields + if isecnum == 4 then 1 else 0);
    }
  }

  lemma {:induction false} RestElsewhere(s: seq<bit>, t: seq<bit>, p: nat, numlocal: nat, numfields: nat)
    requires |s| == |t| >= 32 && 32 <= 8 * p && s[32..] == t[32..]
    ensures Rest(s, p, numlocal, numfields) == Rest(t, p, numlocal, numfields)
    decreases |s| - 8 * p
  {
    hide Dec, Bits;
    if 8 * p + 32 <= |s| {
      SameSlice(s, t, 8 * p, 8 * p + 32);
      var lensec := Dec(s[8 * p..8 * p + 32]);
      if s[8 * p..8 * p + 32] != Bits(SEVENS) && 5 <= lensec && 8 * p + 8 * lensec <= |s| {
        SameSlice(s, t, 8 * p + 32, 8 * p + 40);
        var isecnum := Dec(s[8 * p + 32..8 * p + 40]);
        if 2 <= isecnum <= 7 {
          RestElsewhere(s, t, p + lensec, numlocal + (if isecnum == 2 then 1 else 0),
                        numfields + if isecnum == 4 then 1 else 0);
        }
      }
    }
  }

  lemma {:induction false} SameSlice(s: seq<bit>, t: seq<bit>, i: nat, j: nat)
    requires |s| == |t| && 32 <= i <= j <= |s| && s[32..] == t[32..]
    ensures s[i..j] == t[i..j]
  {
    SliceOfTail(s, 32, i - 32, j - 32);
    SliceOfTail(t, 32, i - 32, j - 32);
  }

  /** The first four octets, where "GRIB" belongs, never matter to `g2_info`. */
  lemma {:induction false} BeginningIgnored(s: seq<bit>, t: seq<bit>)
    requires |s| == |t| >= 32 && s[32..] == t[32..]
    ensures InfoOf(s) == InfoOf(t)
  {
    hide Rest, FetchList, Dec;
    if |s| >= 168 {
      SameSlice(s, t, 48, 56);
      SameSlice(s, t, 56, 64);
      SameSlice(s, t, 96, 128);
      SameSlice(s, t, 128, 160);
      SameSlice(s, t, 160, 168);
      SameSlice(s, t, 168, |s|);
      assert s[168..|s|] == s[168..] && t[168..|t|] == t[168..];
      RestElsewhere(s, t, 16 + Dec(s[128..160]), 0, 0);
    } else if |s| >= 128 {
      SameSlice(s, t, 56, 64);
      SameSlice(s, t, 96, 128);
      if |s| >= 160 { SameSlice(s, t, 128, 160); }
    }
  }

  /** So a finished message is accepted with any four octets in their place. */
  lemma {:induction false} UnmarkedIsAccepted(m: Msg, b: seq<bit>)
    requires Ordered(m) && m.ended && Total(m) < MAXLEN && 0 <= m.disc < 256 && Storable(m.secs[0]) && |b| == 32
    ensures InfoOf(b + MsgBits(m)[32..]) ==
      Accepted(m.disc, Total(m), m.secs[0].list, Sections2(m.secs), Sections4(m.secs))
  {
    hide Ordered, MsgBits, InfoOf, Storable, Formed, Sections2, Sections4;
    FinishedIsAccepted(m);
    assert (b + MsgBits(m)[32..])[32..] == MsgBits(m)[32..];
    BeginningIgnored(b + MsgBits(m)[32..], MsgBits(m));
  }

  /** On octets that begin a message and that `g2_info` accepts, `g2_getfld` always ends. */
  lemma {:induction false} AcceptedEnds(a: seq<byte>, unp: Unpacker, q: Request)
    requires |a| >= 4 && a[0..4] == GRIB && InfoOf(Bits(a)).Accepted?
    ensures Ends(a, unp, q) && !GetFldOutcome(a, unp, q).Going?
  {
    hide Dec, Bits, Rest, FetchList, Halts, GetFldOutcome, NoneEmpty;
    var s := Bits(a);
    EndsExactly(a, unp, q);
    if q.ifldnum > 0 {
      var lensec := Dec(s[128..160]);
      RestNoneEmpty(s, 16 + lensec, 0, 0);
      FirstNotEmpty(s);
      assert Begin(a, q).Got? ==> Begin(a, q).value.istart == 0;
      if Begin(a, q).Got? { NoneEmptyHalts(s, unp, q, Begin(a, q).value, FirstState(Begin(a, q).value)); }
    }
  }

  lemma {:induction false} FirstNotEmpty(s: seq<bit>)
    requires |s| >= 168 && Dec(s[128..160]) > 0 && NoneEmpty(s, 16 + Dec(s[128..160]))
    ensures NoneEmpty(s, 16)
  {
    hide Dec, Bits;
  }
}
