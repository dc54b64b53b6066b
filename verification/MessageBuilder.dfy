/**
 * The builder routines on the octet array: `g2_create`, `g2_addlocal`, `g2_addgrid`,
 * `g2_addfield` and `g2_gribend`.
 */
module MessageBuilder {
  import opened Options
  import opened Shifts
  import opened BitString
  import opened BitIO
  import opened SignMagnitude
  import opened FieldIO
  import opened Templates
  import opened SectionFormat
  import opened Sections
  import opened Message
  import opened SectionWalk

  /** Bit offsets into a longer message do not fit the 32-bit integers of the original. */
  const MAXLEN := 0x1000_0000

  /** The array starts with the octets of m. */
  ghost predicate Stands(cgrib: array<byte>, m: Msg)
    reads cgrib
  {
    && Total(m) <= cgrib.Length < MAXLEN
    && Bits(cgrib[..])[..8 * Total(m)] == MsgBits(m)
  }

  // ----- laying down a section

  method AppendList(cgrib: array<byte>, map_: seq<entry>, vs: seq<int>, ghost s: seq<bit>, ghost done: seq<bit>,
                    iofst0: nat)
    returns (iofst: nat)
    requires |map_| == |vs| && Holds(cgrib, s, done) && iofst0 == |done| && |done| + ListWidth(map_) <= |s|
    modifies cgrib
    ensures iofst == |done| + ListWidth(map_) && Holds(cgrib, s, done + ListBits(map_, vs))
  {
    hide Holds, ListBits, EntryWidth, ListWidth, EntryBits;
    ghost var cur := done;
    iofst := iofst0;
    HoldsSize(cgrib, s, done);
    assert map_[0..] == map_ && vs[0..] == vs;
    for i := 0 to |map_|
      invariant Holds(cgrib, s, cur) && iofst == |cur|
      invariant cur + ListBits(map_[i..], vs[i..]) == done + ListBits(map_, vs)
      invariant iofst + ListWidth(map_[i..]) == |done| + ListWidth(map_)
    {
      assert map_[i..][1..] == map_[i + 1..] && vs[i..][1..] == vs[i + 1..];
      ListCons(map_[i..], vs[i..]);
      var nbits := EntryWidth(map_[i]);
      EntryIs(map_[i], vs[i]);
      if map_[i] > 0 {
        Append(cgrib, vs[i], nbits, s, cur, iofst);
      } else {
        AppendSigned(cgrib, vs[i], nbits, s, cur, iofst);
      }
      Assoc(cur, EntryBits(map_[i], vs[i]), ListBits(map_[i + 1..], vs[i + 1..]));
      cur := cur + EntryBits(map_[i], vs[i]);
      iofst := iofst + nbits;
    }
    assert map_[|map_|..] == [] && vs[|map_|..] == [];
    ListNil();
    assert cur + [] == cur;
  }

  lemma {:induction false} EntryIs(e: entry, v: int)
    ensures EntryBits(e, v) == if e > 0 then Enc(v, EntryWidth(e)) else SignedBits(v, EntryWidth(e))
    ensures EntryWidth(e) >= 8
  {
    hide Enc, SignedBits;
  }

  lemma {:induction false} Gap(s: seq<bit>, done: seq<bit>)
    requires |done| + 32 <= |s|
    ensures Put(s, 0, done + s[|done|..|done| + 32]) == Put(s, 0, done)
  {
    assert s[|done|..] == s[|done|..|done| + 32] + s[|done| + 32..];
  }

  /** Leaves room for the length and stores the number. */
  method BeginSection(cgrib: array<byte>, number: nat, ghost s: seq<bit>, ghost done: seq<bit>, ibeg: nat)
    returns (iofst: nat)
    requires Holds(cgrib, s, done) && ibeg == |done| && ibeg + 40 <= 8 * cgrib.Length
    modifies cgrib
    ensures iofst == ibeg + 40 && |s| >= iofst && Holds(cgrib, s, done + s[ibeg..ibeg + 32] + Enc(number, 8))
  {
    hide Bits, Put, Enc;
    Gap(s, done);
    Append(cgrib, number, 8, s, done + s[ibeg..ibeg + 32], ibeg + 32);
    iofst := ibeg + 40;
  }

  lemma {:induction false} Overwrite(s: seq<bit>, a: seq<bit>, x: seq<bit>, y: seq<bit>, b: seq<bit>)
    requires |x| == |y| && |a + x + b| <= |s|
    ensures Put(Put(s, 0, a + x + b), |a|, y) == Put(s, 0, a + y + b)
  {
  }

  /** Replaces 32 bits in what has been laid down. */
  method Patch(cgrib: array<byte>, v: int, ghost s: seq<bit>, ghost a: seq<bit>, ghost x: seq<bit>, ghost b: seq<bit>,
               at: nat)
    requires Holds(cgrib, s, a + x + b) && at == |a| && |x| == 32
    modifies cgrib
    ensures Holds(cgrib, s, a + Enc(v, 32) + b)
  {
    hide Bits, Put, Enc;
    Overwrite(s, a, x, Enc(v, 32), b);
    PutField(cgrib, v, at + 31, 32);
  }

  /** Stores the length in the room left for it. */
  method EndSection(cgrib: array<byte>, ghost s: seq<bit>, ghost done: seq<bit>, ghost gap: seq<bit>, ghost c: section,
                    ibeg: nat, iofst: nat)
    requires Holds(cgrib, s, done + gap + Enc(Number(c), 8) + Body(c)) && |gap| == 32 && ibeg == |done|
    requires iofst == ibeg + 40 + |Body(c)|
    modifies cgrib
    ensures Holds(cgrib, s, done + SectionBits(c)) && iofst == |done + SectionBits(c)|
  {
    hide Holds, Enc, Body;
    ghost var n, b := Enc(Number(c), 8), Body(c);
    BodyOctets(c);
    Assoc(done + gap, n, b);
    var lensec := (iofst - ibeg) / 8;
    Patch(cgrib, lensec, s, done, gap, n + b, ibeg);
    assert done + Enc(lensec, 32) + (n + b) == done + (Enc(lensec, 32) + n + b);
  }

  lemma {:induction false} WhereHeld(cgrib: array<byte>, s: seq<bit>, m: Msg)
    requires Holds(cgrib, s, MsgBits(m)) && cgrib.Length < MAXLEN
    ensures Stands(cgrib, m)
  {
    hide Bits, MsgBits;
  }

  lemma {:induction false} HeldWhere(cgrib: array<byte>, m: Msg)
    requires Stands(cgrib, m)
    ensures Holds(cgrib, Bits(cgrib[..]), MsgBits(m))
  {
    hide Bits, MsgBits;
    var s := Bits(cgrib[..]);
    assert s == s[..8 * Total(m)] + s[8 * Total(m)..];
  }

  lemma {:induction false} Extended(m: Msg, cs: seq<section>, t: int)
    requires !m.ended
    ensures var m' := Msg(m.disc, m.secs + cs, false);
      && MsgBits(m) + AllBits(cs) == HeadBits(m.disc) + Enc(Total(m), 32) + (AllBits(m.secs) + AllBits(cs))
      && MsgBits(m') == HeadBits(m.disc) + Enc(Total(m'), 32) + (AllBits(m.secs) + AllBits(cs))
      && Total(m') == Total(m) + AllOctets(cs)
  {
    hide AllBits, Enc, HeadBits, AllOctets;
    AllConcat(m.secs, cs);
    var h, e, b, d := HeadBits(m.disc), Enc(Total(m), 32), AllBits(m.secs), AllBits(cs);
    assert h + e + b + [] + d == h + e + (b + d);
    var m' := Msg(m.disc, m.secs + cs, false);
    assert h + Enc(Total(m'), 32) + (b + d) + [] == h + Enc(Total(m'), 32) + (b + d);
  }

  /** The sections are in place: the total in section 0 makes them part of the message. */
  method Account(cgrib: array<byte>, newlen: nat, ghost s: seq<bit>, ghost m: Msg, ghost cs: seq<section>)
    requires !m.ended && Holds(cgrib, s, MsgBits(m) + AllBits(cs)) && cgrib.Length < MAXLEN
    requires newlen == Total(m) + AllOctets(cs)
    modifies cgrib
    ensures Stands(cgrib, Msg(m.disc, m.secs + cs, false))
  {
    hide Holds, MsgBits, AllBits, HeadBits, Enc, Stands, AllOctets;
    Extended(m, cs, newlen);
    Patch(cgrib, newlen, s, HeadBits(m.disc), Enc(Total(m), 32), AllBits(m.secs) + AllBits(cs), 96);
    WhereHeld(cgrib, s, Msg(m.disc, m.secs + cs, false));
  }

  // ----- the walk over the sections that are there

  /** Where section i begins. */
  ghost function Offset(m: Msg, i: nat): (n: nat)
    requires i <= |m.secs|
  {
    16 + AllOctets(m.secs[..i])
  }

  /** The bits around section i. */
  lemma {:induction false} Around(m: Msg, i: nat) returns (a: seq<bit>, b: seq<bit>)
    requires i < |m.secs|
    ensures MsgBits(m) == a + SectionBits(m.secs[i]) + b && |a| == 8 * Offset(m, i)
    ensures Offset(m, i + 1) == Offset(m, i) + Octets(m.secs[i]) <= Total(m)
    ensures i + 1 == |m.secs| ==> Total(m) == Offset(m, i + 1) + if m.ended then 4 else 0
    ensures i + 1 < |m.secs| ==> Offset(m, i + 1) < Total(m)
  {
    hide *;
    Parts(m);
    SplitAt(m.secs, i);
    Inside(HeadBits(m.disc) + Enc(Total(m), 32), AllBits(m.secs[..i]), SectionBits(m.secs[i]), AllBits(m.secs[i + 1..]),
           EndBits(m.ended));
    a, b := HeadBits(m.disc) + Enc(Total(m), 32) + AllBits(m.secs[..i]), AllBits(m.secs[i + 1..]) + EndBits(m.ended);
    OffsetIs(m, i);
    OffsetIs(m, i + 1);
    AtLeast(m.secs[i + 1..]);
  }

  lemma {:induction false} Parts(m: Msg)
    ensures MsgBits(m) == HeadBits(m.disc) + Enc(Total(m), 32) + AllBits(m.secs) + EndBits(m.ended)
    ensures Total(m) == 16 + AllOctets(m.secs) + if m.ended then 4 else 0
  {
    hide HeadBits, Enc, AllBits, EndBits, AllOctets;
  }

  lemma {:induction false} OffsetIs(m: Msg, i: nat)
    requires i <= |m.secs|
    ensures Offset(m, i) == 16 + AllOctets(m.secs[..i])
  {
    hide AllOctets;
  }

  lemma {:induction false} Inside(h: seq<bit>, p: seq<bit>, q: seq<bit>, r: seq<bit>, e: seq<bit>)
    ensures h + (p + q + r) + e == (h + p) + q + (r + e)
  {
  }

  lemma {:induction false} SplitAt(cs: seq<section>, i: nat)
    requires i < |cs|
    ensures AllBits(cs) == AllBits(cs[..i]) + SectionBits(cs[i]) + AllBits(cs[i + 1..])
    ensures AllOctets(cs[..i + 1]) == AllOctets(cs[..i]) + Octets(cs[i])
    ensures AllOctets(cs) == AllOctets(cs[..i + 1]) + AllOctets(cs[i + 1..])
  {
    hide *;
    assert cs == cs[..i + 1] + cs[i + 1..] && cs[..i + 1] == cs[..i] + [cs[i]];
    AllConcat(cs[..i + 1], cs[i + 1..]);
    AllConcat(cs[..i], [cs[i]]);
    AllOne(cs[i]);
  }

  lemma {:induction false} AtLeast(cs: seq<section>)
    ensures AllOctets(cs) >= 5 * |cs| && (cs == [] ==> AllOctets(cs) == 0)
  {
    hide Octets, Formed;
    if cs != [] { AtLeast(cs[1..]); }
  }

  lemma {:induction false} Suffix(s: seq<bit>, n: nat, a: seq<bit>, q: seq<bit>, b: seq<bit>)
    requires n <= |s| && s[..n] == a + q + b
    ensures |a| + |q| <= |s| && s[|a|..] == q + (b + s[n..])
  {
    assert s == s[..n] + s[n..];
    assert s == a + (q + (b + s[n..]));
  }

  /** The bits from section i on. */
  lemma {:induction false} FromSection(s: seq<bit>, m: Msg, i: nat) returns (rest: seq<bit>)
    requires i < |m.secs| && 8 * Total(m) <= |s| && s[..8 * Total(m)] == MsgBits(m)
    ensures 8 * Offset(m, i) + 8 * Octets(m.secs[i]) <= |s| && s[8 * Offset(m, i)..] == SectionBits(m.secs[i]) + rest
    ensures Offset(m, i + 1) == Offset(m, i) + Octets(m.secs[i]) <= Total(m)
    ensures i + 1 == |m.secs| ==> Total(m) == Offset(m, i + 1) + if m.ended then 4 else 0
    ensures i + 1 < |m.secs| ==> Offset(m, i + 1) < Total(m)
  {
    hide *;
    var a, b := Around(m, i);
    Suffix(s, 8 * Total(m), a, SectionBits(m.secs[i]), b);
    rest := b + s[8 * Total(m)..];
  }

  lemma {:induction false} Fields(s: seq<bit>, p: nat, c: section, rest: seq<bit>)
    requires p <= |s| && s[p..] == SectionBits(c) + rest && Octets(c) < 0x1_0000_0000
    ensures p + 40 <= |s| && Dec(s[p..p + 32]) == Octets(c) && Dec(s[p + 32..p + 40]) == Number(c)
    ensures c.Bitmap? ==> p + 48 <= |s| && Dec(s[p + 40..p + 48]) == Low(c.ibmap, 8)
  {
    hide SectionBits, Body, Dec, Enc, Pow2, Formed, Low;
    Pow2Exceeds32();
    HeadRead(c, rest);
    SliceOfTail(s, p, 0, 32);
    SliceOfTail(s, p, 32, 40);
    if c.Bitmap? {
      var tail := BitmapBody(c.ibmap, c.bmap, rest);
      SliceOfTail(s, p, 40, 48);
      SliceOfTail(s[p..], 40, 0, 8);
      assert s[p..][40..][..8] == Enc(c.ibmap, 8);
      DecEnc(c.ibmap, 8);
    }
  }

  /** What the walk reads at section i. */
  lemma {:induction false} SectionAt(cgrib: array<byte>, m: Msg, i: nat)
    requires Stands(cgrib, m) && i < |m.secs|
    ensures Offset(m, i + 1) == Offset(m, i) + Octets(m.secs[i]) <= Total(m)
    ensures i + 1 == |m.secs| ==> Total(m) == Offset(m, i + 1) + if m.ended then 4 else 0
    ensures i + 1 < |m.secs| ==> Offset(m, i + 1) < Total(m)
    ensures var s, p := Bits(cgrib[..]), 8 * Offset(m, i);
      && p + 8 * Octets(m.secs[i]) <= |s|
      && Dec(s[p..p + 32]) == Octets(m.secs[i]) && Dec(s[p + 32..p + 40]) == Number(m.secs[i])
    ensures m.secs[i].Bitmap? ==>
      (var s, p := Bits(cgrib[..]), 8 * Offset(m, i);
       p + 48 <= |s| && Dec(s[p + 40..p + 48]) == Low(m.secs[i].ibmap, 8))
  {
    hide Bits, MsgBits, SectionBits, Body, Dec, Low, Total, Offset, Octets, Formed;
    var s := Bits(cgrib[..]);
    var rest := FromSection(s, m, i);
    Fields(s, 8 * Offset(m, i), m.secs[i], rest);
  }

  lemma {:induction false} Pow2Exceeds32()
    ensures Pow2(32) == 0x1_0000_0000
  {
    Pow2Small();
    Pow2Adds(8, 8);
    Pow2Adds(16, 16);
  }

  /** The end section read as a section length. */
  lemma {:induction false} SevensValue()
    ensures Dec(Bits(SEVENS)) == 0x3737_3737
  {
    hide Dec, Bits;
    FourOctets(0x37, 0x37, 0x37, 0x37);
  }

  lemma {:induction false} EndAt(cgrib: array<byte>, m: Msg)
    requires Stands(cgrib, m) && m.ended
    ensures var p := 8 * Offset(m, |m.secs|);
      p + 32 == 8 * Total(m) && Dec(Bits(cgrib[..])[p..p + 32]) == 0x3737_3737
  {
    hide Bits, Dec, HeadBits, AllBits, Enc, AllOctets;
    assert m.secs[..|m.secs|] == m.secs;
    var s, p := Bits(cgrib[..]), 8 * Offset(m, |m.secs|);
    assert s[p..p + 32] == s[..8 * Total(m)][p..];
    assert MsgBits(m)[p..] == EndBits(true);
    SevensValue();
  }

  ghost predicate HasGrid(cs: seq<section>)
  {
    exists i :: 0 <= i < |cs| && cs[i].GridDefinition?
  }

  predicate IsReusable(c: Content)
  {
    c.Bitmap? && Low(c.ibmap, 8) <= 253
  }

  lemma {:induction false} OneMore(cs: seq<section>, i: nat)
    requires i < |cs|
    ensures HasGrid(cs[..i + 1]) <==> HasGrid(cs[..i]) || cs[i].GridDefinition?
    ensures HasBitmap(cs[..i + 1]) <==> HasBitmap(cs[..i]) || IsReusable(cs[i])
    ensures !HasGrid(cs[..0]) && !HasBitmap(cs[..0])
  {
    hide Low, Formed;
    assert forall j :: 0 <= j < i ==> cs[..i + 1][j] == cs[..i][j];
    assert cs[..i + 1][i] == cs[i];
  }

  /** On a message of the builder the walk finds its sections; behind an ended one it goes too far. */
  lemma {:induction false} BuiltWalk(cgrib: array<byte>, m: Msg, forField: bool, i: nat, grid: bool, map_: bool)
    requires Stands(cgrib, m) && i <= |m.secs| != 0
    requires i == |m.secs| ==> m.ended && Total(m) < cgrib.Length && !forField
    requires m.ended ==> Total(m) < cgrib.Length && !forField
    requires forField ==> grid == HasGrid(m.secs[..i]) && map_ == HasBitmap(m.secs[..i])
    ensures Walks(Bits(cgrib[..]), Total(m), forField, Offset(m, i))
    ensures var w := WalkFrom(Bits(cgrib[..]), Total(m), forField, Offset(m, i), grid, map_);
      && w.ierr == (if m.ended then -3 else 0) && (!m.ended ==> w.number == LastNumber(m))
      && (forField ==> w.grid == HasGrid(m.secs) && w.map_ == HasBitmap(m.secs))
    decreases |m.secs| - i
  {
    hide Stands, Bits, Total, Octets, Offset, HasGrid, HasBitmap, Formed, IsReusable, InSight, LengthAt, NumberAt,
         MapAt;
    if i == |m.secs| {
      EndSeen(cgrib, m);
    } else {
      SectionSeen(cgrib, m, forField, i);
      OneMore(m.secs, i);
      var c := m.secs[i];
      if i + 1 == |m.secs| && !m.ended {
        assert m.secs[..i + 1] == m.secs;
      } else {
        BuiltWalk(cgrib, m, forField, i + 1, grid || c.GridDefinition?, map_ || (forField && IsReusable(c)));
      }
    }
  }

  lemma {:induction false} SectionSeen(cgrib: array<byte>, m: Msg, forField: bool, i: nat)
    requires Stands(cgrib, m) && i < |m.secs|
    ensures var s, len, c := Bits(cgrib[..]), Offset(m, i), m.secs[i];
      && InSight(s, forField, len) && NumberAt(s, len) == Number(c) && 0 < LengthAt(s, len)
      && (MapAt(s, forField, len) <==> forField && IsReusable(c)) && (NumberAt(s, len) == 3 <==> c.GridDefinition?)
      && Offset(m, i + 1) == len + LengthAt(s, len) <= Total(m)
    ensures i + 1 == |m.secs| ==> Total(m) == Offset(m, i + 1) + if m.ended then 4 else 0
    ensures i + 1 < |m.secs| ==> Offset(m, i + 1) < Total(m)
  {
    hide Stands, Bits, Dec, Total, Octets, Offset, Formed, Low;
    SectionAt(cgrib, m, i);
  }

  lemma {:induction false} EndSeen(cgrib: array<byte>, m: Msg)
    requires Stands(cgrib, m) && m.ended && Total(m) < cgrib.Length
    ensures var s, len := Bits(cgrib[..]), Offset(m, |m.secs|);
      InSight(s, false, len) && !MapAt(s, false, len) && len + LengthAt(s, len) > Total(m)
  {
    hide Stands, Bits, Dec, Total, Offset;
    StandsIn(cgrib, m);
    EndAt(cgrib, m);
  }

  lemma {:induction false} Lengths(m: Msg, i: nat)
    requires i < |m.secs|
    ensures Offset(m, i + 1) <= Total(m)
    ensures i + 1 == |m.secs| ==> Total(m) == Offset(m, i + 1) + if m.ended then 4 else 0
    ensures i + 1 < |m.secs| ==> Offset(m, i + 1) < Total(m)
  {
    hide *;
    var _, _ := Around(m, i);
  }

  lemma {:induction false} NothingBefore(m: Msg)
    ensures Offset(m, 0) == 16
  {
  }

  lemma {:induction false} StandsIn(cgrib: array<byte>, m: Msg)
    requires Stands(cgrib, m)
    ensures Total(m) <= cgrib.Length < MAXLEN
  {
  }

  // ----- what every routine checks first

  lemma {:induction false} TotalAt(cgrib: array<byte>, m: Msg)
    requires Stands(cgrib, m)
    ensures 16 <= Total(m) && Dec(Bits(cgrib[..])[96..128]) == Total(m)
  {
    hide Bits, Dec, HeadBits, AllBits, EndBits, Enc, AllOctets, Pow2;
    var s := Bits(cgrib[..]);
    assert s[96..128] == s[..8 * Total(m)][96..128] == Enc(Total(m), 32);
    Pow2Exceeds32();
    DecEnc(Total(m), 32);
    LowIdentity(Total(m), 32);
  }

  lemma {:induction false} CompleteAt(cgrib: array<byte>, m: Msg)
    requires Stands(cgrib, m)
    ensures Total(m) >= 16
    ensures cgrib[..][Total(m) - 4..Total(m)] == SEVENS <==> LooksComplete(m)
  {
    hide Bits, MsgBits, AllOctets;
    var n, a := Total(m), cgrib[..];
    BitsSlice(a, n - 4, n);
    assert Bits(a)[8 * n - 32..8 * n] == Bits(a)[..8 * n][8 * n - 32..];
    if Bits(a[n - 4..n]) == Bits(SEVENS) { BitsInjective(a[n - 4..n], SEVENS); }
  }

  lemma {:induction false} StartsSo(cgrib: array<byte>, m: Msg)
    requires Stands(cgrib, m)
    ensures cgrib.Length >= 16 && cgrib[..][0..4] == GRIB
  {
    hide Bits, Enc, AllBits, EndBits, AllOctets;
    var a := cgrib[..];
    var s := Bits(a);
    BitsSlice(a, 0, 4);
    assert s[0..32] == s[..8 * Total(m)][..32] == Bits(GRIB);
    BitsInjective(a[0..4], GRIB);
  }

  /** The checks, on a message of the builder. */
  lemma {:induction false} BuiltCheck(cgrib: array<byte>, m: Msg, unfinished: bool, forField: bool)
    requires Stands(cgrib, m) && Ordered(m) && (forField ==> unfinished) && (!unfinished ==> Total(m) < cgrib.Length)
    ensures Checkable(cgrib[..], unfinished, forField)
    ensures var w := CheckOf(cgrib[..], unfinished, forField);
      && w.ierr == (if unfinished && LooksComplete(m) then -2 else if m.ended then -3 else 0)
      && (w.ierr == 0 ==> TotalIn(cgrib[..]) == Total(m) && w.number == LastNumber(m))
      && (w.ierr == 0 && forField ==> w.grid == HasGrid(m.secs) && w.map_ == HasBitmap(m.secs))
  {
    hide Bits, Dec, Stands, Follows, Total, HasGrid, HasBitmap, LooksComplete, Walks, WalkFrom, Offset;
    StandsIn(cgrib, m);
    TotalAt(cgrib, m);
    CompleteAt(cgrib, m);
    StartsSo(cgrib, m);
    if m.ended { EndedLooksComplete(m); }
    if !(unfinished && LooksComplete(m)) {
      NothingBefore(m);
      OneMore(m.secs, 0);
      BuiltWalk(cgrib, m, forField, 0, false, false);
    }
  }

  /** The array holds a message of the builder, and so much room behind it. */
  ghost predicate Built(cgrib: array<byte>, m: Msg, room: nat)
    reads cgrib
  {
    Stands(cgrib, m) && Ordered(m) && Total(m) + room <= cgrib.Length
  }

  /** Any octets on which the checks end; those that pass them are to be a message of the builder. */
  ghost predicate Ready(cgrib: array<byte>, m: Msg, c: Checks, room: nat)
    reads cgrib
  {
    hide Checkable, Refused, Built;
    && Checkable(cgrib[..], c.unfinished, c.forField)
    && (Refused(cgrib[..], c) == 0 ==> Built(cgrib, m, room))
  }

  /** A message of the builder is such. */
  lemma {:induction false} BuiltReady(cgrib: array<byte>, m: Msg, c: Checks, room: nat)
    requires Built(cgrib, m, room) && (c.forField ==> c.unfinished) && (!c.unfinished ==> room > 0)
    ensures Ready(cgrib, m, c, room)
  {
    hide Checkable, Refused, Stands, Total, Ordered;
    BuiltCheck(cgrib, m, c.unfinished, c.forField);
  }

  /** The answer of the checks on a message of the builder. */
  lemma {:induction false} BuiltRefused(cgrib: array<byte>, m: Msg, c: Checks, room: nat)
    requires Built(cgrib, m, room) && (c.forField ==> c.unfinished) && (!c.unfinished ==> room > 0)
    ensures Checkable(cgrib[..], c.unfinished, c.forField)
    ensures Refused(cgrib[..], c) ==
      if c.unfinished && LooksComplete(m) then -2 else if !c.unfinished && m.ended then -3
      else if LastNumber(m) !in c.after then -4 else if c.forField && !HasGrid(m.secs) then -6 else 0
    ensures Refused(cgrib[..], c) == 0 ==> TotalIn(cgrib[..]) == Total(m)
    ensures Refused(cgrib[..], c) == 0 && c.forField ==>
      CheckOf(cgrib[..], true, true).map_ == HasBitmap(m.secs)
  {
    hide Checkable, CheckOf, Stands, Total, Ordered, LooksComplete, HasGrid, HasBitmap;
    BuiltCheck(cgrib, m, c.unfinished, c.forField);
    if m.ended { EndedLooksComplete(m); }
  }

  // ----- the routines

  method AppendOctets(cgrib: array<byte>, cs: seq<byte>, ghost s: seq<bit>, ghost done: seq<bit>, ioctet: nat)
    requires Holds(cgrib, s, done) && 8 * ioctet == |done| && ioctet + |cs| <= cgrib.Length
    modifies cgrib
    ensures Holds(cgrib, s, done + Bits(cs))
  {
    hide Bits, Put;
    ghost var a := cgrib[..];
    for j := 0 to |cs|
      invariant forall i :: 0 <= i < cgrib.Length ==>
        cgrib[i] == if ioctet <= i < ioctet + j then cs[i - ioctet] else a[i]
    {
      cgrib[ioctet + j] := cs[j];
    }
    OctetsPut(a, cgrib[..], ioctet, cs);
    PutMore(s, done, Bits(cs));
  }

  lemma {:induction false} OctetsPut(a: seq<byte>, b: seq<byte>, p: nat, cs: seq<byte>)
    requires |a| == |b| && p + |cs| <= |a|
    requires forall i :: 0 <= i < |a| ==> b[i] == if p <= i < p + |cs| then cs[i - p] else a[i]
    ensures Bits(b) == Put(Bits(a), 8 * p, Bits(cs))
  {
    hide Bits;
    assert b == a[..p] + cs + a[p + |cs|..];
    BitsConcat(a[..p] + cs, a[p + |cs|..]);
    BitsConcat(a[..p], cs);
    BitsSlice(a, 0, p);
    BitsSlice(a, p + |cs|, |a|);
    assert a[0..p] == a[..p] && a[p + |cs|..|a|] == a[p + |cs|..];
  }

  /** `g2_addlocal` */
  method AddLocalSection(cgrib: array<byte>, csec2: seq<byte>, ghost m: Msg) returns (ret: int)
    requires Ready(cgrib, m, FOR_LOCAL, 5 + |csec2|)
    modifies cgrib
    ensures var e := Refused(old(cgrib[..]), FOR_LOCAL);
      e != 0 ==> ret == e && cgrib[..] == old(cgrib[..])
    ensures old(Built(cgrib, m, 5 + |csec2|)) ==>
      ret == Returned(m, AddLocal(csec2)) && Stands(cgrib, After(m, AddLocal(csec2)))
  {
    hide Bits, Stands, Follows, Total, LooksComplete, Holds, MsgBits, AllBits, AllOctets, Octets, Body, SectionBits,
         Checkable, CheckOf, TotalIn, Ordered, HasGrid, HasBitmap;
    if Built(cgrib, m, 5 + |csec2|) { BuiltRefused(cgrib, m, FOR_LOCAL, 5 + |csec2|); }
    var ierr, lencurr, isecnum, _, _ := Check(cgrib, true, false);
    if ierr != 0 { return ierr; }
    if isecnum != 1 && isecnum != 7 { return -4; }
    ghost var s, c := Bits(cgrib[..]), Local(csec2);
    HeldWhere(cgrib, m);
    StandsIn(cgrib, m);
    var ibeg := 8 * lencurr;
    var iofst := BeginSection(cgrib, 2, s, MsgBits(m), ibeg);
    AppendOctets(cgrib, csec2, s, MsgBits(m) + s[ibeg..ibeg + 32] + Enc(2, 8), lencurr + 5);
    var lensec2 := |csec2| + 5;
    LocalIs(c);
    EndSection(cgrib, s, MsgBits(m), s[ibeg..ibeg + 32], c, ibeg, iofst + 8 * |csec2|);
    AllOne(c);
    lencurr := lencurr + lensec2;
    if m.ended { EndedLooksComplete(m); }
    Account(cgrib, lencurr, s, m, [c]);
    Grown(m, [c]);
    return lencurr;
  }

  lemma {:induction false} LocalIs(c: section)
    requires c.Local?
    ensures Body(c) == Bits(c.octets) && Octets(c) == 5 + |c.octets|
  {
    hide Bits;
  }

  lemma {:induction false} Grown(m: Msg, cs: seq<section>)
    requires !m.ended
    ensures Total(Msg(m.disc, m.secs + cs, false)) == Total(m) + AllOctets(cs)
  {
    hide AllOctets;
    AllConcat(m.secs, cs);
  }

  lemma {:induction false} UsedIs(kind: Kind, number: int, vs: seq<int>)
    requires Known(kind, number) && Enough(kind, number, vs)
    ensures var map_, ext, u := Lookup(kind, number).value.map_, Tail(kind, number, vs), Used(kind, number, vs);
      && |u| == |map_| + |ext| && u[..|map_|] == vs[..|map_|] && u[|map_|..] == vs[|map_|..|map_| + |ext|]
      && FullMap(kind, number, u) == map_ + ext
      && ListWidth(FullMap(kind, number, u)) == ListWidth(map_) + ListWidth(ext)
  {
    hide Lookup, Tail, ListWidth;
    var map_, ext, u := Lookup(kind, number).value.map_, Tail(kind, number, vs), Used(kind, number, vs);
    TailFromStatic(kind, number, vs);
    TailFromStatic(kind, number, u);
    assert u[..|map_|] == vs[..|map_|];
    ListConcat(map_, ext, u);
  }

  /** The static entries, then the tail. */
  method AppendTemplate(cgrib: array<byte>, kind: Kind, number: int, list: seq<int>, ghost s: seq<bit>,
                        ghost done: seq<bit>, iofst0: nat)
    returns (iofst: nat)
    requires Known(kind, number) && Enough(kind, number, list) && Holds(cgrib, s, done) && iofst0 == |done|
    requires var u := Used(kind, number, list); |done + ListBits(FullMap(kind, number, u), u)| <= |s|
    modifies cgrib
    ensures var u := Used(kind, number, list);
      var e := ListBits(FullMap(kind, number, u), u);
      iofst == |done + e| && Holds(cgrib, s, done + e)
  {
    hide Holds, Lookup, Tail, ListWidth, ListBits, FullMap, Used;
    ghost var u := Used(kind, number, list);
    UsedIs(kind, number, list);
    var map_ := Lookup(kind, number).value.map_;
    var ext := ExtendTemplate(kind, number, list);
    var n := |map_|;
    ListConcat(map_, ext, u);
    iofst := AppendList(cgrib, map_, list[..n], s, done, iofst0);
    iofst := AppendList(cgrib, ext, list[n..n + |ext|], s, done + ListBits(map_, list[..n]), iofst);
    Assoc(done, ListBits(map_, list[..n]), ListBits(ext, list[n..n + |ext|]));
  }

  lemma {:induction false} StillStands(cgrib: array<byte>, s: seq<bit>, m: Msg, x: seq<bit>)
    requires Holds(cgrib, s, MsgBits(m) + x) && cgrib.Length < MAXLEN
    ensures Stands(cgrib, m)
  {
    hide Bits, MsgBits, Put;
    PutStart(s, MsgBits(m), x);
  }

  lemma {:induction false} PutStart(s: seq<bit>, a: seq<bit>, x: seq<bit>)
    requires |a + x| <= |s|
    ensures Put(s, 0, a + x)[..|a|] == a
  {
  }

  /** Octets that the call may write behind the message. */
  ghost function GridRoom(call: Call): (n: nat)
    requires call.AddGrid? && Sane(call)
  {
    hide Lookup, Tail, Octets, GridContent;
    if call.igds[0] == 0 && !Known(Grid, call.igds[4]) then 14
    else Octets(GridContent(call.igds, call.gtmpl, call.deflist))
  }

  /** `g2_addgrid` */
  method AddGridSection(cgrib: array<byte>, igds: seq<int>, gtmpl: seq<int>, deflist: seq<int>, ghost m: Msg)
    returns (ret: int)
    requires Sane(AddGrid(igds, gtmpl, deflist)) && Ready(cgrib, m, FOR_GRID, GridRoom(AddGrid(igds, gtmpl, deflist)))
    modifies cgrib
    ensures var e := Refused(old(cgrib[..]), FOR_GRID);
      e != 0 ==> ret == e && cgrib[..] == old(cgrib[..])
    ensures old(Built(cgrib, m, GridRoom(AddGrid(igds, gtmpl, deflist)))) ==>
      ret == Returned(m, AddGrid(igds, gtmpl, deflist)) && Stands(cgrib, After(m, AddGrid(igds, gtmpl, deflist)))
  {
    hide Bits, Stands, Follows, Total, LooksComplete, Holds, MsgBits, AllBits, AllOctets, Octets, Body, SectionBits,
         Lookup, Tail, ListBits, ListWidth, GridContent, Enc, Checkable, CheckOf, TotalIn, Ordered, HasGrid, HasBitmap,
         GridRoom;
    ghost var call := AddGrid(igds, gtmpl, deflist);
    if Built(cgrib, m, GridRoom(call)) { BuiltRefused(cgrib, m, FOR_GRID, GridRoom(call)); }
    var ierr, lencurr, isecnum, _, _ := Check(cgrib, true, false);
    if ierr != 0 { return ierr; }
    if isecnum != 1 && isecnum != 2 && isecnum != 7 { return -4; }
    ghost var s, msg := Bits(cgrib[..]), MsgBits(m);
    HeldWhere(cgrib, m);
    StandsIn(cgrib, m);
    GdsWidth();
    var ibeg := 8 * lencurr;
    GridRoomIs(call);
    ghost var gap := s[ibeg..ibeg + 32];
    var iofst := BeginSection(cgrib, 3, s, msg, ibeg);
    ghost var front := msg + gap + Enc(3, 8);
    var gds := igds[4 := GridNumber(igds)];
    iofst := AppendList(cgrib, GDS, gds, s, front, iofst);
    ghost var cur := front + ListBits(GDS, gds);
    if igds[0] == 0 && !Known(Grid, igds[4]) {
      assert cur == msg + (gap + Enc(3, 8) + ListBits(GDS, gds));
      StillStands(cgrib, s, m, gap + Enc(3, 8) + ListBits(GDS, gds));
      return -5;
    }
    ghost var c := GridContent(igds, gtmpl, deflist);
    iofst := GridRest(cgrib, igds, gtmpl, deflist, s, front, iofst);
    EndSection(cgrib, s, msg, gap, c, ibeg, iofst);
    AllOne(c);
    if m.ended { EndedLooksComplete(m); }
    var lensec3 := (iofst - ibeg) / 8;
    lencurr := lencurr + lensec3;
    Account(cgrib, lencurr, s, m, [c]);
    Grown(m, [c]);
    return lencurr;
  }

  lemma {:induction false} GridRoomIs(call: Call)
    requires call.AddGrid? && Sane(call)
    ensures GridRoom(call) >= 14
    ensures (call.igds[0] == 0 ==> Known(Grid, call.igds[4])) ==>
      GridRoom(call) == Octets(GridContent(call.igds, call.gtmpl, call.deflist))
  {
    hide Lookup, Tail, ListBits, ListWidth, OptionalList, Used;
    if call.igds[0] == 0 && !Known(Grid, call.igds[4]) {
    } else {
      GridBody(GridContent(call.igds, call.gtmpl, call.deflist));
    }
  }

  /** The template and the optional list. */
  method GridRest(cgrib: array<byte>, igds: seq<int>, gtmpl: seq<int>, deflist: seq<int>, ghost s: seq<bit>,
                  ghost front: seq<bit>, iofst0: nat)
    returns (iofst: nat)
    requires |igds| == 5 && igds[2] >= 0 && (igds[0] == 0 ==> Known(Grid, igds[4]) && Enough(Grid, igds[4], gtmpl))
    requires var a := ListBits(GDS, igds[4 := GridNumber(igds)]); Holds(cgrib, s, front + a) && iofst0 == |front + a|
    requires |front + Body(GridContent(igds, gtmpl, deflist))| <= |s|
    modifies cgrib
    ensures var e := front + Body(GridContent(igds, gtmpl, deflist)); iofst == |e| && Holds(cgrib, s, e)
  {
    hide Holds, Lookup, Tail, ListBits, ListWidth, OptionalList, Used, FullMap, Body, EncAll;
    ghost var c := GridContent(igds, gtmpl, deflist);
    ghost var a := ListBits(GDS, igds[4 := GridNumber(igds)]);
    ghost var b := if igds[0] == 0 then ListBits(FullMap(Grid, igds[4], c.gtmpl), c.gtmpl) else [];
    ghost var l := OptionalList(igds[2], c.deflist);
    GridBody(c);
    assert front + (a + b + l) == front + a + b + l;
    iofst := iofst0;
    if igds[0] == 0 {
      iofst := AppendTemplate(cgrib, Grid, igds[4], gtmpl, s, front + a, iofst);
    } else {
      assert front + a + [] == front + a;
    }
    OptionalIs(igds[2], c.deflist);
    if igds[2] != 0 {
      var nbits := 8 * igds[2];
      AppendAll(cgrib, deflist, nbits, s, front + a + b, iofst);
      iofst := iofst + |deflist| * nbits;
    } else {
      assert front + a + b + [] == front + a + b;
    }
  }

  lemma {:induction false} OptionalIs(n: nat, list: seq<int>)
    ensures OptionalList(n, list) == if n == 0 then [] else EncAll(list, 8 * n)
    ensures n > 0 ==> |OptionalList(n, list)| == |list| * (8 * n)
  {
    hide EncAll;
    EncAllLength(list, 8 * n);
  }

  // ----- a field

  /** Section 4 behind `done`; when the template is unknown, only its first fields. */
  method LayProduct(cgrib: array<byte>, pnum: int, ptmpl: seq<int>, coords: seq<int>, ghost s: seq<bit>,
                    ghost done: seq<bit>, ibeg: nat)
    returns (ok: bool, iofst: nat, ghost x: seq<bit>)
    requires Enough(Product, pnum, ptmpl) && Holds(cgrib, s, done) && ibeg == |done| && ibeg + 72 <= 8 * cgrib.Length
    requires Known(Product, pnum) ==>
      ibeg + 8 * Octets(ProductDefinition(pnum, Used(Product, pnum, ptmpl), coords)) <= 8 * cgrib.Length
    modifies cgrib
    ensures ok == Known(Product, pnum) && Holds(cgrib, s, done + x)
    ensures ok ==> x == SectionBits(ProductDefinition(pnum, Used(Product, pnum, ptmpl), coords)) && iofst == ibeg + |x|
  {
    hide Bits, Holds, Lookup, Tail, ListBits, ListWidth, FullMap, Used, Enc, Body, SectionBits, Octets, EncAll;
    HoldsSize(cgrib, s, done);
    ghost var gap, vs := s[ibeg..ibeg + 32], [|coords|, pnum];
    TwoWidths();
    iofst := BeginSection(cgrib, 4, s, done, ibeg);
    ghost var front := done + gap + Enc(4, 8);
    iofst := AppendList(cgrib, PDS, [|coords|, pnum], s, front, iofst);
    ghost var a := ListBits(PDS, vs);
    ok := Known(Product, pnum);
    if !ok {
      x := gap + Enc(4, 8) + a;
      assert front + a == done + x;
      return;
    }
    ghost var u := Used(Product, pnum, ptmpl);
    ghost var c := ProductDefinition(pnum, u, coords);
    ghost var b, l := ListBits(FullMap(Product, pnum, u), u), EncAll(coords, 32);
    ProductIs(c);
    HoldsSize(cgrib, s, front + a);
    assert front + (a + b + l) == front + a + b + l;
    iofst := AppendTemplate(cgrib, Product, pnum, ptmpl, s, front + a, iofst);
    if |coords| != 0 {
      AppendAll(cgrib, coords, 32, s, front + a + b, iofst);
      iofst := iofst + 32 * |coords|;
    } else {
      assert front + a + b + [] == front + a + b;
    }
    EndSection(cgrib, s, done, gap, c, ibeg, iofst);
    x := SectionBits(c);
  }

  lemma {:induction false} ProductIs(c: section)
    requires c.ProductDefinition?
    ensures Body(c) == ListBits(PDS, [|c.coords|, c.pnum]) + ListBits(FullMap(Product, c.pnum, c.ptmpl), c.ptmpl) +
      EncAll(c.coords, 32)
    ensures |EncAll(c.coords, 32)| == 32 * |c.coords| && 8 * Octets(c) == 40 + |Body(c)|
    ensures c.coords == [] ==> EncAll(c.coords, 32) == []
  {
    hide ListBits, FullMap, Lookup, Tail;
    EncAllLength(c.coords, 32);
  }

  lemma {:induction false} TwoWidths()
    ensures ListWidth(PDS) == 32 && ListWidth(DRS) == 48
  {
    assert PDS[1..] == [2] && DRS[1..] == [2];
    assert ListWidth([2]) == 16;
  }

  /** Section 5. */
  method LayRepresentation(cgrib: array<byte>, ndpts: int, dnum: int, dtmpl: seq<int>, ghost s: seq<bit>,
                           ghost done: seq<bit>, ibeg: nat)
    returns (iofst: nat)
    requires Known(Representation, dnum) && Enough(Representation, dnum, dtmpl) && Holds(cgrib, s, done)
    requires ibeg == |done|
    requires ibeg + 8 * Octets(DataRepresentation(ndpts, dnum, Used(Representation, dnum, dtmpl))) <= 8 * cgrib.Length
    modifies cgrib
    ensures var e := done + SectionBits(DataRepresentation(ndpts, dnum, Used(Representation, dnum, dtmpl)));
      iofst == |e| && Holds(cgrib, s, e)
  {
    hide Bits, Holds, Lookup, Tail, ListBits, ListWidth, FullMap, Used, Enc, Body, SectionBits, Octets;
    ghost var u := Used(Representation, dnum, dtmpl);
    ghost var c := DataRepresentation(ndpts, dnum, u);
    RepresentationIs(c);
    HoldsSize(cgrib, s, done);
    ghost var gap, a, b := s[ibeg..ibeg + 32], ListBits(DRS, [ndpts, dnum]),
      ListBits(FullMap(Representation, dnum, u), u);
    iofst := BeginSection(cgrib, 5, s, done, ibeg);
    ghost var front := done + gap + Enc(5, 8);
    HoldsSize(cgrib, s, front);
    Assoc(front, a, b);
    iofst := AppendList(cgrib, DRS, [ndpts, dnum], s, front, iofst);
    iofst := AppendTemplate(cgrib, Representation, dnum, dtmpl, s, front + a, iofst);
    EndSection(cgrib, s, done, gap, c, ibeg, iofst);
  }

  lemma {:induction false} RepresentationIs(c: section)
    requires c.DataRepresentation?
    ensures Body(c) == ListBits(DRS, [c.ndpts, c.dnum]) + ListBits(FullMap(Representation, c.dnum, c.dtmpl), c.dtmpl)
    ensures 8 * Octets(c) == 40 + |Body(c)|
  {
    hide ListBits, FullMap, Lookup, Tail;
  }

  /** Section 6, unless it refers to an earlier bit map and there is none. */
  method LayBitmap(cgrib: array<byte>, ibmap: int, bmap: seq<int>, isprevbmap: bool, ghost s: seq<bit>,
                   ghost done: seq<bit>, ibeg: nat)
    returns (ok: bool, iofst: nat, ghost x: seq<bit>)
    requires Holds(cgrib, s, done) && ibeg == |done| && ibeg % 8 == 0
    requires ibeg + 8 * Octets(Bitmap(ibmap, if ibmap == 0 then bmap else [])) <= 8 * cgrib.Length
    modifies cgrib
    ensures ok == !(ibmap == 254 && !isprevbmap) && Holds(cgrib, s, done + x)
    ensures ok ==> x == SectionBits(Bitmap(ibmap, if ibmap == 0 then bmap else [])) && iofst == ibeg + |x|
  {
    hide Bits, Holds, Enc, Body, SectionBits, Octets, EncAll, Up8, Zeros;
    ghost var c := Bitmap(ibmap, if ibmap == 0 then bmap else []);
    BitmapIs(c);
    HoldsSize(cgrib, s, done);
    ghost var gap, a := s[ibeg..ibeg + 32], Enc(ibmap, 8);
    ghost var l := if ibmap == 0 then EncAll(bmap, 1) else [];
    iofst := BeginSection(cgrib, 6, s, done, ibeg);
    ghost var front := done + gap + Enc(6, 8);
    HoldsSize(cgrib, s, front);
    Append(cgrib, ibmap, 8, s, front, iofst);
    iofst := iofst + 8;
    if ibmap == 0 {
      AppendAll(cgrib, bmap, 1, s, front + a, iofst);
      iofst := iofst + |bmap|;
    } else {
      assert front + a + [] == front + a;
    }
    ok := !(ibmap == 254 && !isprevbmap);
    if !ok {
      x := gap + Enc(6, 8) + a;
      assert front + a == done + x;
      return;
    }
    PadFrom(ibeg, 40, |a + l|);
    iofst := AppendPad(cgrib, iofst, s, front + a + l, iofst);
    assert front + a + l + Zeros(Up8(|a + l|) - |a + l|) == front + (a + l + Zeros(Up8(|a + l|) - |a + l|));
    EndSection(cgrib, s, done, gap, c, ibeg, iofst);
    x := SectionBits(c);
  }

  lemma {:induction false} PadFrom(ibeg: nat, k: nat, n: nat)
    requires ibeg % 8 == 0 && k % 8 == 0
    ensures Up8(ibeg + k + n) - (ibeg + k + n) == Up8(n) - n
  {
    hide Up8;
    Whole(ibeg, k);
    Up8After(ibeg + k, n);
  }

  lemma {:induction false} BitmapIs(c: section)
    requires c.Bitmap?
    ensures var e := Enc(c.ibmap, 8) + if c.ibmap == 0 then EncAll(c.bmap, 1) else [];
      Body(c) == e + Zeros(Up8(|e|) - |e|) && 8 * Octets(c) == 40 + |Body(c)| &&
        |e| == 8 + if c.ibmap == 0 then |c.bmap| else 0
  {
    hide Up8, Enc;
    EncAllLength(c.bmap, 1);
  }

  /** Section 7. */
  method LayData(cgrib: array<byte>, cpack: seq<byte>, ghost s: seq<bit>, ghost done: seq<bit>, ibeg: nat)
    returns (iofst: nat)
    requires Holds(cgrib, s, done) && ibeg == |done| && ibeg % 8 == 0 && ibeg + 40 + 8 * |cpack| <= 8 * cgrib.Length
    modifies cgrib
    ensures var e := done + SectionBits(Data(cpack)); iofst == |e| && Holds(cgrib, s, e)
  {
    hide Bits, Holds, Enc, Body, SectionBits, Octets;
    ghost var c: section := Data(cpack);
    DataIs(c);
    HoldsSize(cgrib, s, done);
    ghost var gap := s[ibeg..ibeg + 32];
    iofst := BeginSection(cgrib, 7, s, done, ibeg);
    ghost var front := done + gap + Enc(7, 8);
    if |cpack| != 0 {
      var ioctet := iofst / 8;
      AppendOctets(cgrib, cpack, s, front, ioctet);
      iofst := iofst + 8 * |cpack|;
    } else {
      assert Body(c) == [] && front + [] == front;
    }
    EndSection(cgrib, s, done, gap, c, ibeg, iofst);
  }

  lemma {:induction false} DataIs(c: section)
    requires c.Data?
    ensures Body(c) == Bits(c.cpack) && Octets(c) == 5 + |c.cpack|
  {
    hide Bits;
  }

  /** The data at the points whose bit is 1. */
  function Kept(bmap: seq<int>, fld: seq<real>): (r: seq<real>)
    requires |fld| == |bmap|
    ensures |r| == Ones(bmap)
  {
    if bmap == [] then [] else
    var k := |bmap| - 1;
    Kept(bmap[..k], fld[..k]) + if bmap[k] == 1 then [fld[k]] else []
  }

  /** Removes the data at the points that the bit map rules out. */
  method Contract(bmap: seq<int>, fld: seq<real>) returns (pfld: seq<real>, ndpts: nat)
    requires |fld| == |bmap|
    ensures pfld == Kept(bmap, fld) && ndpts == |pfld| == Ones(bmap)
  {
    pfld, ndpts := [], 0;
    for j := 0 to |bmap|
      invariant pfld == Kept(bmap[..j], fld[..j]) && ndpts == |pfld|
    {
      assert bmap[..j + 1][..j] == bmap[..j] && fld[..j + 1][..j] == fld[..j];
      if bmap[j] == 1 {
        pfld := pfld + [fld[j]];
        ndpts := ndpts + 1;
      }
    }
    assert bmap[..|bmap|] == bmap && fld[..|bmap|] == fld;
  }

  /** The data points behind the bit map. */
  method CountPoints(ngrdpts: nat, ibmap: int, bmap: seq<int>) returns (ndpts: nat)
    requires ibmap == 0 || ibmap == 254 ==> |bmap| == ngrdpts
    ensures ndpts == Points(ngrdpts, ibmap, bmap)
  {
    if ibmap == 0 || ibmap == 254 {
      ndpts := 0;
      for j := 0 to ngrdpts
        invariant ndpts == Ones(bmap[..j])
      {
        assert bmap[..j + 1][..j] == bmap[..j];
        if bmap[j] == 1 { ndpts := ndpts + 1; }
      }
      assert bmap[..ngrdpts] == bmap;
    } else {
      ndpts := ngrdpts;
    }
  }

  ghost function FieldRoom(call: Call): (n: nat)
    requires call.AddField? && Sane(call)
  {
    hide Lookup, Tail, Octets, AllOctets, ProductContent, FieldContents;
    if !Known(Product, call.pnum) then 9
    else if !Known(Representation, call.dnum) || !call.packing.Done? then Octets(ProductContent(call))
    else Octets(ProductContent(call)) + AllOctets(FieldContents(call))
  }

  lemma {:induction false} GridBefore(m: Msg, i: nat)
    requires Ordered(m) && i < |m.secs| && Number(m.secs[i]) >= 3
    ensures HasGrid(m.secs)
  {
    hide Formed;
    if !m.secs[i].GridDefinition? {
      assert Follows(Number(m.secs[i - 1]), Number(m.secs[i]));
      GridBefore(m, i - 1);
    }
  }

  lemma {:induction false} ThreeSections(a: section, b: section, c: section)
    ensures AllBits([a, b, c]) == SectionBits(a) + SectionBits(b) + SectionBits(c)
    ensures AllOctets([a, b, c]) == Octets(a) + Octets(b) + Octets(c)
  {
    hide *;
    assert [a, b, c] == [a] + [b] + [c];
    AllConcat([a] + [b], [c]);
    AllConcat([a], [b]);
    AllOne(a);
    AllOne(b);
    AllOne(c);
  }

  lemma {:induction false} FieldContentsAre(call: Call)
    requires call.AddField? && Sane(call) && Known(Representation, call.dnum) && call.packing.Done?
    ensures var cs := FieldContents(call);
      && Enough(Representation, call.dnum, call.packing.dtmpl)
      && cs == [cs[0], cs[1], cs[2]]
      && cs[0] == DataRepresentation(Points(call.ngrdpts, call.ibmap, call.bmap), call.dnum,
                                     Used(Representation, call.dnum, call.packing.dtmpl))
      && cs[1] == Bitmap(call.ibmap, if call.ibmap == 0 then call.bmap else [])
      && cs[2] == Data(call.packing.cpack)
  {
    hide Lookup, Tail, Used, Points;
  }

  lemma {:induction false} WholeOctets(at: nat, n: nat)
    requires at % 8 == 0
    ensures (at + 8 * n) % 8 == 0
  {
  }

  /** Sections 5, 6 and 7, given as r, b and d. */
  method LayField(cgrib: array<byte>, ndpts: nat, dnum: int, dtmpl: seq<int>, cpack: seq<byte>, ibmap: int,
                  bmap: seq<int>, isprevbmap: bool, ghost s: seq<bit>, ghost done: seq<bit>, ibeg: nat,
                  ghost r: section, ghost b: section, ghost d: section)
    returns (ok: bool, iofst: nat, ghost x: seq<bit>)
    requires Known(Representation, dnum) && Enough(Representation, dnum, dtmpl)
    requires r == DataRepresentation(ndpts, dnum, Used(Representation, dnum, dtmpl))
    requires b == Bitmap(ibmap, if ibmap == 0 then bmap else []) && d == Data(cpack)
    requires Holds(cgrib, s, done) && ibeg == |done| && ibeg % 8 == 0
    requires ibeg + 8 * (Octets(r) + Octets(b) + Octets(d)) <= 8 * cgrib.Length
    modifies cgrib
    ensures ok == !(ibmap == 254 && !isprevbmap) && Holds(cgrib, s, done + x)
    ensures ok ==> x == SectionBits(r) + SectionBits(b) + SectionBits(d) && iofst == ibeg + |x|
  {
    hide *;
    iofst := LayRepresentation(cgrib, ndpts, dnum, dtmpl, s, done, ibeg);
    assert iofst == ibeg + 8 * Octets(r);
    WholeOctets(ibeg, Octets(r));
    ok, iofst, x := LayBitmap(cgrib, ibmap, bmap, isprevbmap, s, done + SectionBits(r), iofst);
    Assoc(done, SectionBits(r), x);
    x := SectionBits(r) + x;
    if ok {
      assert iofst == ibeg + 8 * (Octets(r) + Octets(b));
      WholeOctets(ibeg, Octets(r) + Octets(b));
      DataIs(d);
      iofst := LayData(cgrib, cpack, s, done + x, iofst);
      Assoc(done, x, SectionBits(d));
      x := x + SectionBits(d);
    }
  }

  /** A field after a section 3 or 7 of a message of the builder: its grid is there. */
  lemma {:induction false} BuiltField(cgrib: array<byte>, m: Msg, room: nat)
    requires Built(cgrib, m, room)
    ensures Checkable(cgrib[..], true, true)
    ensures Refused(cgrib[..], FOR_FIELD) ==
      if LooksComplete(m) then -2 else if LastNumber(m) !in {3, 7} then -4 else 0
    ensures Refused(cgrib[..], FOR_FIELD) == 0 ==>
      TotalIn(cgrib[..]) == Total(m) && CheckOf(cgrib[..], true, true).map_ == HasBitmap(m.secs)
  {
    hide Checkable, CheckOf, Stands, Total, LooksComplete, HasGrid, HasBitmap, Refused;
    BuiltRefused(cgrib, m, FOR_FIELD, room);
    if LastNumber(m) in {3, 7} { GridBefore(m, |m.secs| - 1); }
  }

  /** `g2_addfield`, given what packing the field came to. */
  method AddFieldSections(cgrib: array<byte>, pnum: int, ptmpl: seq<int>, coords: seq<int>, dnum: int, packing: Packing,
                          ngrdpts: nat, ibmap: int, bmap: seq<int>, ghost m: Msg)
    returns (ret: int)
    requires Sane(AddField(pnum, ptmpl, coords, dnum, packing, ngrdpts, ibmap, bmap))
    requires Ready(cgrib, m, FOR_FIELD, FieldRoom(AddField(pnum, ptmpl, coords, dnum, packing, ngrdpts, ibmap, bmap)))
    modifies cgrib
    ensures var e := Refused(old(cgrib[..]), FOR_FIELD);
      e != 0 ==> ret == e && cgrib[..] == old(cgrib[..])
    ensures old(Built(cgrib, m, FieldRoom(AddField(pnum, ptmpl, coords, dnum, packing, ngrdpts, ibmap, bmap)))) ==>
      (var call := AddField(pnum, ptmpl, coords, dnum, packing, ngrdpts, ibmap, bmap);
       ret == Returned(m, call) && Stands(cgrib, After(m, call)))
  {
    hide Bits, Stands, Follows, Total, LooksComplete, Holds, MsgBits, AllBits, AllOctets, Octets, Body, SectionBits,
         Lookup, Tail, ProductContent, FieldContents, Used, HasBitmap, HasGrid, Points, FieldRoom,
         Checkable, CheckOf, TotalIn, Ordered;
    ghost var call := AddField(pnum, ptmpl, coords, dnum, packing, ngrdpts, ibmap, bmap);
    if Built(cgrib, m, FieldRoom(call)) { BuiltField(cgrib, m, FieldRoom(call)); }
    var ierr, lencurr, isecnum, issec3, isprevbmap := Check(cgrib, true, true);
    if ierr != 0 { return ierr; }
    if isecnum != 3 && isecnum != 7 { return -4; }
    if !issec3 { return -6; }
    ghost var s, msg := Bits(cgrib[..]), MsgBits(m);
    HeldWhere(cgrib, m);
    StandsIn(cgrib, m);
    FieldRoomIs(call);
    var ok, iofst, x := LayProduct(cgrib, pnum, ptmpl, coords, s, msg, 8 * lencurr);
    StillStands(cgrib, s, m, x);
    if !ok { return -5; }
    if !Known(Representation, dnum) { return -5; }
    var ndpts := CountPoints(ngrdpts, ibmap, bmap);
    if packing.Unimplemented? { return -7; }
    if packing.NotSpectral? { return -9; }
    if packing.Failed? { return -10; }
    if m.ended { EndedLooksComplete(m); }
    ghost var p, cs := ProductContent(call), FieldContents(call);
    FieldContentsAre(call);
    ThreeSections(cs[0], cs[1], cs[2]);
    ghost var y;
    ok, iofst, y := LayField(cgrib, ndpts, dnum, packing.dtmpl, packing.cpack, ibmap, bmap, isprevbmap, s, msg + x,
                             iofst, cs[0], cs[1], cs[2]);
    Assoc(msg, x, y);
    StillStands(cgrib, s, m, x + y);
    if !ok { return -8; }
    AllConcat([p], cs);
    AllOne(p);
    var newlen := iofst / 8;
    Account(cgrib, newlen, s, m, [p] + cs);
    Grown(m, [p] + cs);
    return newlen;
  }

  lemma {:induction false} FieldRoomIs(call: Call)
    requires call.AddField? && Sane(call)
    ensures FieldRoom(call) >= 9
    ensures Known(Product, call.pnum) ==>
      ProductContent(call) == ProductDefinition(call.pnum, Used(Product, call.pnum, call.ptmpl), call.coords)
    ensures Known(Product, call.pnum) ==> FieldRoom(call) >= Octets(ProductContent(call))
    ensures Known(Product, call.pnum) && Known(Representation, call.dnum) && call.packing.Done? ==>
      FieldRoom(call) == Octets(ProductContent(call)) + AllOctets(FieldContents(call))
  {
    hide Lookup, Tail, Used, AllOctets, FieldContents, ListBits, FullMap, EncAll, Body;
    TwoWidths();
    if Known(Product, call.pnum) { ProductIs(ProductContent(call)); }
  }

  /** `g2_gribend` */
  method AddEnd(cgrib: array<byte>, ghost m: Msg) returns (ret: int)
    requires Ready(cgrib, m, FOR_END, 4)
    modifies cgrib
    ensures var e := Refused(old(cgrib[..]), FOR_END);
      e != 0 ==> ret == e && cgrib[..] == old(cgrib[..])
    ensures old(Built(cgrib, m, 4)) ==>
      ret == Returned(m, End) && Stands(cgrib, After(m, End))
  {
    hide Bits, Stands, Follows, Holds, MsgBits, AllBits, AllOctets, Enc, HeadBits, Checkable, CheckOf, TotalIn,
         Ordered, HasGrid, HasBitmap, LooksComplete;
    if Built(cgrib, m, 4) { BuiltRefused(cgrib, m, FOR_END, 4); }
    var ierr, lencurr, isecnum, _, _ := Check(cgrib, false, false);
    if ierr != 0 { return ierr; }
    if isecnum != 7 { return -4; }
    ghost var s := Bits(cgrib[..]);
    HeldWhere(cgrib, m);
    StandsIn(cgrib, m);
    AppendOctets(cgrib, SEVENS, s, MsgBits(m), lencurr);
    var lengrib := lencurr + 4;
    ghost var m' := Msg(m.disc, m.secs, true);
    assert m.secs + [] == m.secs;
    Parts(m);
    Parts(m');
    ghost var h, b := HeadBits(m.disc), AllBits(m.secs);
    assert h + Enc(Total(m), 32) + b + [] + Bits(SEVENS) == h + Enc(Total(m), 32) + (b + Bits(SEVENS));
    Patch(cgrib, lengrib, s, h, Enc(Total(m), 32), b + Bits(SEVENS), 96);
    assert h + Enc(lengrib, 32) + (b + Bits(SEVENS)) == h + Enc(lengrib, 32) + b + Bits(SEVENS);
    WhereHeld(cgrib, s, m');
    return lengrib;
  }

  /** `g2_create`: sections 0 and 1, for edition 2 only. */
  method Create(cgrib: array<byte>, disc: int, edition: int, listsec1: seq<int>) returns (ret: int)
    requires |listsec1| == 13 && 37 <= cgrib.Length < MAXLEN
    modifies cgrib
    ensures edition != 2 ==> ret == -1 && cgrib[..] == old(cgrib[..])
    ensures edition == 2 ==>
      (var m := Msg(disc, [Identification(listsec1)], false); ret == Total(m) && Stands(cgrib, m) && Ordered(m))
  {
    hide Bits, Stands, Holds, MsgBits, AllBits, AllOctets, Enc, Octets, SectionBits, Body, ListBits, ListWidth;
    if edition != 2 { return -1; }
    ghost var s := Bits(cgrib[..]);
    HoldsNothing(cgrib);
    AppendOctets(cgrib, GRIB, s, [], 0);
    ghost var g := Bits(GRIB);
    assert [] + g == g;
    Append(cgrib, 0, 16, s, g, 32);
    Append(cgrib, disc, 8, s, g + Enc(0, 16), 48);
    Append(cgrib, edition, 8, s, g + Enc(0, 16) + Enc(disc, 8), 56);
    ghost var f := g + Enc(0, 16) + Enc(disc, 8) + Enc(2, 8);
    ghost var x, y := s[64..96], s[96..128];
    HoldsGap(cgrib, s, f);
    HoldsGap(cgrib, s, f + x);
    ghost var c := Identification(listsec1);
    IdentIs(c);
    var iofst := BeginSection(cgrib, 1, s, f + x + y, 128);
    ghost var gap := s[128..160];
    iofst := AppendList(cgrib, IDENT, listsec1, s, f + x + y + gap + Enc(1, 8), iofst);
    EndSection(cgrib, s, f + x + y, gap, c, 128, iofst);
    var lensec1 := (iofst - 128) / 8;
    ghost var b := SectionBits(c);
    assert f + x + y + b == f + x + (y + b);
    Patch(cgrib, 0, s, f, x, y + b, 64);
    var len := 16 + lensec1;
    assert f + Enc(0, 32) + (y + b) == f + Enc(0, 32) + y + b;
    Patch(cgrib, len, s, f + Enc(0, 32), y, b, 96);
    ghost var m := Msg(disc, [c], false);
    AllOne(c);
    Parts(m);
    assert f + Enc(0, 32) + Enc(len, 32) + b + [] == f + Enc(0, 32) + Enc(len, 32) + b;
    WhereHeld(cgrib, s, m);
    return len;
  }

  lemma {:induction false} HoldsGap(cgrib: array<byte>, s: seq<bit>, done: seq<bit>)
    requires Holds(cgrib, s, done) && |done| + 32 <= |s|
    ensures Holds(cgrib, s, done + s[|done|..|done| + 32])
  {
    hide Bits, Put;
    Gap(s, done);
  }

  lemma {:induction false} IdentIs(c: section)
    requires c.Identification?
    ensures Body(c) == ListBits(IDENT, c.list) && Octets(c) == 21 && ListWidth(IDENT) == 128
  {
    IdentWidth();
    hide ListBits, ListWidth;
  }

  /** An unfinished message is refused all the same when its last section ends in "7777". */
  lemma {:induction false} RefusedUnfinished(m: Msg, t: seq<byte>, call: Call)
    requires Ordered(m) && !m.ended && m.secs[|m.secs| - 1] == Local(t + SEVENS) && Sane(call) && !call.End?
    ensures Answer(m, call) == Bad(-2)
  {
    hide LooksComplete, Follows, Sane, AnswerGrid, AnswerField;
    EndsInSevens(m, t);
  }

  lemma {:induction false} EndsInSevens(m: Msg, t: seq<byte>)
    requires m.secs != [] && !m.ended && m.secs[|m.secs| - 1] == Local(t + SEVENS)
    ensures LooksComplete(m)
  {
    hide Bits, MsgBits, Enc, SectionBits, Octets, Total, Offset, Formed, Body;
    var i := |m.secs| - 1;
    var a, b := Around(m, i);
    var c := m.secs[i];
    var x, y := Enc(Octets(c), 32) + Enc(2, 8), Bits(SEVENS);
    LocalBits(c);
    BitsConcat(t, SEVENS);
    Assoc(x, Bits(t), y);
    Behind(MsgBits(m), a, SectionBits(c), b, x + Bits(t), y);
  }

  lemma {:induction false} Behind(s: seq<bit>, a: seq<bit>, c: seq<bit>, b: seq<bit>, x: seq<bit>, y: seq<bit>)
    requires s == a + c + b && |s| == |a| + |c| && c == x + y
    ensures s[|s| - |y|..] == y
  {
  }

  lemma {:induction false} LocalBits(c: section)
    requires c.Local?
    ensures SectionBits(c) == Enc(Octets(c), 32) + Enc(2, 8) + Bits(c.octets)
  {
    hide Enc, Bits;
  }
}
