/** `gbits` and `sbits`: reading and storing fields of any width at any bit offset of an octet array. */
module BitIO {
  import opened Shifts
  import opened BitString

  // ----- specification: strided fields of a bit string

  /** n fields of width w, the first at p and each k bits after the last, all inside `size` bits. */
  ghost predicate Fits(size: nat, p: nat, w: nat, k: nat, n: nat)
    decreases n
  {
    n > 0 ==> p + w <= size && Fits(size, p + w + k, w, k, n - 1)
  }

  ghost function Put(s: seq<bit>, p: nat, e: seq<bit>): (r: seq<bit>)
    requires p + |e| <= |s|
    ensures |r| == |s|
  {
    s[..p] + e + s[p + |e|..]
  }

  ghost function Stored(s: seq<bit>, vs: seq<int>, p: nat, w: nat, k: nat): (r: seq<bit>)
    requires Fits(|s|, p, w, k, |vs|)
    ensures |r| == |s|
    decreases |vs|
  {
    if vs == [] then s else Stored(Put(s, p, Enc(vs[0], w)), vs[1..], p + w + k, w, k)
  }

  ghost function Fetched(s: seq<bit>, p: nat, w: nat, k: nat, n: nat): (vs: seq<nat>)
    requires Fits(|s|, p, w, k, n)
    ensures |vs| == n
    decreases n
  {
    if n == 0 then [] else [Dec(s[p..p + w])] + Fetched(s, p + w + k, w, k, n - 1)
  }

  /** Bit i lies in one of the fields. */
  ghost predicate Covered(i: nat, p: nat, w: nat, k: nat, n: nat)
    decreases n
  {
    n > 0 && (p <= i < p + w || Covered(i, p + w + k, w, k, n - 1))
  }

  lemma {:induction false} CoveredFrom(i: nat, p: nat, w: nat, k: nat, n: nat)
    requires Covered(i, p, w, k, n)
    ensures p <= i
    decreases n
  {
    if !(p <= i < p + w) { CoveredFrom(i, p + w + k, w, k, n - 1); }
  }

  /** Storing changes no bit outside the fields. */
  lemma {:induction false} StoredElsewhere(s: seq<bit>, vs: seq<int>, p: nat, w: nat, k: nat, i: nat)
    requires Fits(|s|, p, w, k, |vs|)
    requires i < |s| && !Covered(i, p, w, k, |vs|)
    ensures Stored(s, vs, p, w, k)[i] == s[i]
    decreases |vs|
  {
    if vs == [] {
    } else {
      StoredElsewhere(Put(s, p, Enc(vs[0], w)), vs[1..], p + w + k, w, k, i);
    }
  }

  lemma {:induction false} StoredBefore(s: seq<bit>, vs: seq<int>, p: nat, w: nat, k: nat, i: nat, j: nat)
    requires Fits(|s|, p, w, k, |vs|)
    requires i <= j <= p && j <= |s|
    ensures Stored(s, vs, p, w, k)[i..j] == s[i..j]
  {
    forall b | i <= b < j ensures Stored(s, vs, p, w, k)[b] == s[b] {
      if Covered(b, p, w, k, |vs|) { CoveredFrom(b, p, w, k, |vs|); }
      StoredElsewhere(s, vs, p, w, k, b);
    }
  }

  /** What was stored is fetched back, modulo 2^w. */
  lemma {:induction false} FetchStored(s: seq<bit>, vs: seq<int>, p: nat, w: nat, k: nat)
    requires Fits(|s|, p, w, k, |vs|)
    ensures Fetched(Stored(s, vs, p, w, k), p, w, k, |vs|) == LowAll(vs, w)
    decreases |vs|
  {
    if vs == [] {
    } else {
      var v, tail := vs[0], vs[1..];
      var t := Put(s, p, Enc(v, w));
      FetchStored(t, tail, p + w + k, w, k);
      StoredBefore(t, tail, p + w + k, w, k, p, p + w);
      assert t[p..p + w] == Enc(v, w);
      DecEnc(v, w);
      LowAllCons(vs, w);
    }
  }

  // ----- contiguous fields

  lemma {:induction false} FitsRun(size: nat, p: nat, w: nat, n: nat)
    requires p + n * w <= size
    ensures Fits(size, p, w, 0, n)
    decreases n
  {
    if n > 0 {
      FirstField(w, n);
      FitsRun(size, p + w, w, n - 1);
    }
  }

  lemma {:induction false} PutPut(s: seq<bit>, p: nat, e: seq<bit>, f: seq<bit>)
    requires p + |e| + |f| <= |s|
    ensures Put(Put(s, p, e), p + |e|, f) == Put(s, p, e + f)
  {
  }

  lemma {:induction false} StoredRun(s: seq<bit>, vs: seq<int>, p: nat, w: nat)
    requires p + |vs| * w <= |s|
    ensures Fits(|s|, p, w, 0, |vs|) && |EncAll(vs, w)| == |vs| * w
    ensures Stored(s, vs, p, w, 0) == Put(s, p, EncAll(vs, w))
    decreases |vs|
  {
    EncAllLength(vs, w);
    FitsRun(|s|, p, w, |vs|);
    if vs == [] {
    } else {
      FirstField(w, |vs|);
      EncAllLength(vs[1..], w);
      StoredRun(Put(s, p, Enc(vs[0], w)), vs[1..], p + w, w);
      PutPut(s, p, Enc(vs[0], w), EncAll(vs[1..], w));
    }
  }

  lemma {:induction false} FetchedRun(s: seq<bit>, p: nat, w: nat, n: nat)
    requires p + n * w <= |s|
    ensures Fits(|s|, p, w, 0, n)
    ensures Fetched(s, p, w, 0, n) == DecAll(s[p..], w, n)
    decreases n
  {
    FitsRun(|s|, p, w, n);
    if n > 0 {
      FirstField(w, n);
      FetchedRun(s, p + w, w, n - 1);
      SliceOfTail(s, p, 0, w);
      assert s[p..][w..] == s[p + w..];
    }
  }

  // ----- one octet

  /** b with its t bits above the lowest s replaced by the low t bits of v: the masks of `sbits`. */
  function Insert(b: byte, v: int, t: nat, s: nat): (r: byte)
    requires t + s <= 8
  {
    InsertBound(b, v, t, s);
    Shl(Shl(Shr(b, t + s), t) + Low(v, t), s) + Low(b, s)
  }

  lemma {:induction false} ByteSplit(b: byte, n: nat)
    requires n <= 8
    ensures 0 <= Shr(b, n) < Pow2(8 - n)
    ensures Enc(b, 8)[..8 - n] == Enc(Shr(b, n), 8 - n) && Enc(b, 8)[8 - n..] == Enc(b, n)
  {
    EncSplit(b, 8 - n, n);
    Pow2Small();
    ShrBound(b, 8 - n, n);
  }

  lemma {:induction false} InsertBound(b: byte, v: int, t: nat, s: nat)
    requires t + s <= 8
    ensures 0 <= Shl(Shl(Shr(b, t + s), t) + Low(v, t), s) + Low(b, s) < 256
  {
    ByteSplit(b, t + s);
    ShlBound(Shr(b, t + s), 8 - t - s, Low(v, t), t);
    ShlBound(Shl(Shr(b, t + s), t) + Low(v, t), 8 - s, Low(b, s), s);
    Pow2Small();
  }

  lemma {:induction false} InsertBits(b: byte, v: int, t: nat, s: nat)
    requires t + s <= 8
    ensures Enc(Insert(b, v, t, s), 8) == Enc(b, 8)[..8 - t - s] + Enc(v, t) + Enc(b, 8)[8 - s..]
  {
    hide Enc, Shl, Low, Shr;
    var h := Shr(b, t + s);
    EncConcat(Shl(h, t) + Low(v, t), 8 - s, Low(b, s), s);
    EncConcat(h, 8 - s - t, Low(v, t), t);
    EncLow(v, t);
    EncLow(b, s);
    ByteSplit(b, t + s);
    ByteSplit(b, s);
  }

  lemma {:induction false} BitsUpdate(a: seq<byte>, i: nat, r: byte)
    requires i < |a|
    ensures Bits(a[i := r]) == Bits(a[..i]) + Enc(r, 8) + Bits(a[i + 1..])
  {
    assert a[i := r] == a[..i] + [r] + a[i + 1..];
    BitsConcat(a[..i] + [r], a[i + 1..]);
    BitsConcat(a[..i], [r]);
    EncAllOne(r, 8);
  }

  /** Replacing t bits of one octet replaces exactly those bits of the string. */
  lemma {:induction false} InsertAt(a: seq<byte>, i: nat, v: int, t: nat, s: nat)
    requires i < |a| && t + s <= 8
    ensures Bits(a[i := Insert(a[i], v, t, s)]) == Put(Bits(a), 8 * i + 8 - t - s, Enc(v, t))
  {
    hide *;
    BitsUpdate(a, i, Insert(a[i], v, t, s));
    BitsUpdate(a, i, a[i]);
    InsertBits(a[i], v, t, s);
    assert a == a[i := a[i]];
    PutInside(Bits(a[..i]), Enc(a[i], 8), Bits(a[i + 1..]), 8 - t - s, Enc(v, t));
  }

  lemma {:induction false} PutInside(x: seq<bit>, y: seq<bit>, z: seq<bit>, p: nat, e: seq<bit>)
    requires p + |e| <= |y|
    ensures x + (y[..p] + e + y[p + |e|..]) + z == Put(x + y + z, |x| + p, e)
  {
  }

  // ----- the two routines

  /** Bits lo to hi of octet i, right justified. */
  lemma {:induction false} ByteField(a: seq<byte>, i: nat, lo: nat, hi: nat)
    requires i < |a| && lo <= hi <= 8
    ensures Dec(Bits(a)[8 * i + lo..8 * i + hi]) == Low(Shr(a[i], 8 - hi), hi - lo)
  {
    hide *;
    BitsOfByte(a, i);
    SliceOfSlice(Bits(a), 8 * i, 8 * i + 8, lo, hi);
    ByteFieldBits(a[i], lo, hi);
    DecEnc(Shr(a[i], 8 - hi), hi - lo);
  }

  lemma {:induction false} ByteFieldBits(b: byte, lo: nat, hi: nat)
    requires lo <= hi <= 8
    ensures Enc(b, 8)[lo..hi] == Enc(Shr(b, 8 - hi), hi - lo)
  {
    var h := Shr(b, 8 - hi);
    ByteSplit(b, 8 - hi);
    EncSplit(h, lo, hi - lo);
    assert Enc(b, 8)[lo..hi] == Enc(b, 8)[..hi][lo..];
  }

  lemma {:induction false} SliceOfSlice<T>(s: seq<T>, p: nat, q: nat, i: nat, j: nat)
    requires i <= j && p + j <= q <= |s|
    ensures s[p..q][i..j] == s[p + i..p + j]
  {
    var t := s[p..q];
    forall k | 0 <= k < j - i ensures t[i..j][k] == s[p + i..p + j][k] {
      assert t[i..j][k] == t[i + k];
    }
    assert |t[i..j]| == j - i;
  }

  lemma {:induction false} DecExtend(s: seq<bit>, p: nat, q: nat, r: nat)
    requires p <= q <= r <= |s|
    ensures Dec(s[p..r]) == Shl(Dec(s[p..q]), r - q) + Dec(s[q..r])
  {
    assert s[p..r] == s[p..q] + s[q..r];
    DecConcat(s[p..q], s[q..r]);
  }

  /** One trip of the loop of `gbits`: the field of nbyte bits at bit nbit. */
  method GetField(input: array<byte>, nbit: nat, nbyte: nat) returns (itmp: nat)
    requires 1 <= nbyte && nbit + nbyte <= 8 * input.Length
    ensures itmp == Dec(Bits(input[..])[nbit..nbit + nbyte])
  {
    hide *;
    ghost var a := input[..];
    ghost var s := Bits(a);
    var bitcnt := nbyte;
    var index, ibit := nbit / 8, nbit % 8;
    var tbit := if bitcnt < 8 - ibit then bitcnt else 8 - ibit;
    itmp := Low(input[index], 8 - ibit);
    if tbit != 8 - ibit {
      itmp := Shr(itmp, 8 - ibit - tbit);
    }
    FirstByte(a, index, ibit, ibit + tbit);
    index := index + 1;
    bitcnt := bitcnt - tbit;
    while bitcnt >= 8
      invariant 0 <= bitcnt <= nbyte
      invariant bitcnt > 0 ==> 8 * index == nbit + nbyte - bitcnt
      invariant itmp == Dec(s[nbit..nbit + nbyte - bitcnt])
    {
      NextBits(a, nbit, index, 8);
      itmp := Shl(itmp, 8) + input[index];
      bitcnt := bitcnt - 8;
      index := index + 1;
    }
    if bitcnt > 0 {
      NextBits(a, nbit, index, bitcnt);
      itmp := Shl(itmp, bitcnt) + Low(Shr(input[index], 8 - bitcnt), bitcnt);
    }
  }

  lemma {:induction false} FirstByte(a: seq<byte>, i: nat, lo: nat, hi: nat)
    requires i < |a| && lo <= hi <= 8
    ensures Shr(Low(a[i], 8 - lo), 8 - hi) == Dec(Bits(a)[8 * i + lo..8 * i + hi])
    ensures Shr(Low(a[i], 8 - lo), 0) == Low(a[i], 8 - lo)
  {
    hide *;
    ShrNone(Low(a[i], 8 - lo));
    ByteField(a, i, lo, hi);
    LowThenShr(a[i], hi - lo, 8 - hi);
  }

  lemma {:induction false} NextBits(a: seq<byte>, p: nat, i: nat, n: nat)
    requires i < |a| && p <= 8 * i && n <= 8
    ensures Dec(Bits(a)[p..8 * i + n]) == Shl(Dec(Bits(a)[p..8 * i]), n) + Low(Shr(a[i], 8 - n), n)
    ensures n == 8 ==> Low(Shr(a[i], 8 - n), n) == a[i]
  {
    hide *;
    ShrNone(a[i]);
    Pow2Small();
    DecExtend(Bits(a), p, 8 * i, 8 * i + n);
    ByteField(a, i, 0, n);
    LowIdentity(a[i], 8);
  }

  /** `gbits`: |iout| fields of nbyte bits, the first at bit iskip and each nskip bits after the last. */
  method Gbits(input: array<byte>, iskip: nat, nbyte: nat, nskip: nat, n: nat) returns (iout: seq<nat>)
    requires 1 <= nbyte && Fits(8 * input.Length, iskip, nbyte, nskip, n)
    ensures iout == Fetched(Bits(input[..]), iskip, nbyte, nskip, n)
  {
    var nbit: nat := iskip;
    iout := [];
    for i := 0 to n
      invariant Fits(8 * input.Length, nbit, nbyte, nskip, n - i)
      invariant iout + Fetched(Bits(input[..]), nbit, nbyte, nskip, n - i)
             == Fetched(Bits(input[..]), iskip, nbyte, nskip, n)
    {
      var itmp := GetField(input, nbit, nbyte);
      nbit := nbit + nbyte + nskip;
      iout := iout + [itmp];
    }
  }

  lemma {:induction false} PutBefore(s: seq<bit>, p: nat, e: seq<bit>, f: seq<bit>)
    requires |e| <= p && p + |f| <= |s|
    ensures Put(Put(s, p, f), p - |e|, e) == Put(s, p - |e|, e + f)
  {
  }

  /** With the low `done` bits of v in place from bit p on, octet i takes the next t bits. */
  lemma {:induction false} StoreStep(a: seq<byte>, s: seq<bit>, p: nat, v: int, done: nat, i: nat, t: nat, sh: nat)
    requires i < |a| && t + sh <= 8 && p == 8 * i + 8 - sh && p + done <= |s| == 8 * |a|
    requires Bits(a) == Put(s, p, Enc(v, done))
    ensures Bits(a[i := Insert(a[i], Shr(v, done), t, sh)]) == Put(s, p - t, Enc(v, done + t))
    ensures Shr(Shr(v, done), t) == Shr(v, done + t)
  {
    hide Bits, Enc, Shr, Insert;
    InsertAt(a, i, Shr(v, done), t, sh);
    EncSplit(v, t, done);
    PutBefore(s, p, Enc(Shr(v, done), t), Enc(v, done));
    ShrShr(v, done, t);
  }

  lemma {:induction false} StoreStart(s: seq<bit>, p: nat, v: int)
    requires p <= |s|
    ensures Put(s, p, Enc(v, 0)) == s && Shr(v, 0) == v
  {
  }

  /** The masking of one octet: its t bits above the lowest sh take the low t bits of itmp. */
  method StoreOctet(out: array<byte>, itmp: int, index: nat, t: nat, sh: nat,
                    ghost s: seq<bit>, ghost p: nat, ghost v: int, ghost done: nat)
    requires index < out.Length && t + sh <= 8 && p == 8 * index + 8 - sh
    requires p + done <= |s| == 8 * out.Length && itmp == Shr(v, done)
    requires Bits(out[..]) == Put(s, p, Enc(v, done))
    modifies out
    ensures Bits(out[..]) == Put(s, p - t, Enc(v, done + t))
  {
    hide *;
    ghost var a := out[..];
    StoreStep(a, s, p, v, done, index, t, sh);
    out[index] := Insert(out[index], itmp, t, sh);
    assert out[..] == a[index := out[index]];
  }

  /** One trip of the loop of `sbits`, filling the field back from its last bit nbit. */
  method PutField(out: array<byte>, v: int, nbit: nat, nbyte: nat)
    requires 1 <= nbyte <= nbit + 1 && nbit < 8 * out.Length
    modifies out
    ensures Bits(out[..]) == Put(old(Bits(out[..])), nbit + 1 - nbyte, Enc(v, nbyte))
  {
    hide *;
    ghost var s := Bits(out[..]);
    StoreStart(s, nbit + 1, v);
    var itmp, bitcnt := v, nbyte;
    var index, ibit := nbit / 8, nbit % 8;
    if ibit != 7 {
      var tbit := if bitcnt < ibit + 1 then bitcnt else ibit + 1;
      StoreOctet(out, itmp, index, tbit, 7 - ibit, s, nbit + 1, v, 0);
      bitcnt := bitcnt - tbit;
      itmp := Shr(itmp, tbit);
      ShrShr(v, 0, tbit);
      index := index - 1;
    }
    while bitcnt >= 8
      invariant 0 <= bitcnt <= nbyte
      invariant bitcnt > 0 ==> 8 * (index + 1) == nbit + 1 - nbyte + bitcnt
      invariant itmp == Shr(v, nbyte - bitcnt)
      invariant Bits(out[..]) == Put(s, nbit + 1 - nbyte + bitcnt, Enc(v, nbyte - bitcnt))
    {
      ghost var done := nbyte - bitcnt;
      StoreOctet(out, itmp, index, 8, 0, s, nbit + 1 - done, v, done);
      itmp := Shr(itmp, 8);
      ShrShr(v, done, 8);
      bitcnt := bitcnt - 8;
      index := index - 1;
    }
    if bitcnt > 0 {
      ghost var done := nbyte - bitcnt;
      StoreOctet(out, itmp, index, bitcnt, 0, s, nbit + 1 - done, v, done);
    }
  }

  /** `sbits`: the low nbyte bits of each value, the first field at bit iskip, nskip bits between fields. */
  method Sbits(out: array<byte>, values: seq<int>, iskip: nat, nbyte: nat, nskip: nat)
    requires 1 <= nbyte && Fits(8 * out.Length, iskip, nbyte, nskip, |values|)
    modifies out
    ensures Bits(out[..]) == Stored(old(Bits(out[..])), values, iskip, nbyte, nskip)
  {
    hide Bits, Enc, Put;
    var nbit := iskip + nbyte - 1;
    for i := 0 to |values|
      invariant nbit + 1 >= nbyte && Fits(8 * out.Length, nbit + 1 - nbyte, nbyte, nskip, |values| - i)
      invariant Stored(Bits(out[..]), values[i..], nbit + 1 - nbyte, nbyte, nskip)
             == Stored(old(Bits(out[..])), values, iskip, nbyte, nskip)
    {
      PutField(out, values[i], nbit, nbyte);
      nbit := nbit + nbyte + nskip;
      assert values[i..][1..] == values[i + 1..];
    }
  }

  /** Contiguous fields (nskip = 0) replace one stretch of the bit string. */
  method SbitsRun(out: array<byte>, values: seq<int>, iskip: nat, nbyte: nat)
    requires 1 <= nbyte && iskip + |values| * nbyte <= 8 * out.Length
    modifies out
    ensures |EncAll(values, nbyte)| == |values| * nbyte
    ensures Bits(out[..]) == Put(old(Bits(out[..])), iskip, EncAll(values, nbyte))
  {
    hide *;
    StoredRun(Bits(out[..]), values, iskip, nbyte);
    Sbits(out, values, iskip, nbyte, 0);
  }

  method GbitsRun(input: array<byte>, iskip: nat, nbyte: nat, n: nat) returns (iout: seq<nat>)
    requires 1 <= nbyte && iskip + n * nbyte <= 8 * input.Length
    ensures iout == DecAll(Bits(input[..])[iskip..], nbyte, n)
  {
    hide *;
    FetchedRun(Bits(input[..]), iskip, nbyte, n);
    iout := Gbits(input, iskip, nbyte, 0, n);
  }
}
