/** Big-endian bit strings: the specification that the packed octets are read against. */
module BitString {
  import opened Shifts

  type bit = b: int | 0 <= b < 2
  type byte = b: int | 0 <= b < 256

  /** The low w bits of v, most significant first; a negative v is in two's complement. */
  function Enc(v: int, w: nat): (s: seq<bit>)
    ensures |s| == w
    decreases w, v  // v keeps the verifier from unrolling Enc(v, 8) in full
  {
    if w == 0 then [] else Enc(v / 2, w - 1) + [v % 2]
  }

  function Dec(s: seq<bit>): (v: nat)
  {
    if s == [] then 0 else 2 * Dec(s[..|s| - 1]) + s[|s| - 1]
  }

  /** The fields of width w laid end to end. */
  function EncAll(vs: seq<int>, w: nat): (s: seq<bit>)
  {
    if vs == [] then [] else Enc(vs[0], w) + EncAll(vs[1..], w)
  }

  lemma {:induction false} EncAllLength(vs: seq<int>, w: nat)
    ensures |EncAll(vs, w)| == |vs| * w
  {
    if vs == [] {
    } else {
      EncAllLength(vs[1..], w);
      FirstField(w, |vs|);
    }
  }

  /** n fields of width w read from the front of s. */
  function DecAll(s: seq<bit>, w: nat, n: nat): (vs: seq<nat>)
    requires n * w <= |s|
    ensures |vs| == n
    decreases n
  {
    if n == 0 then [] else
      FirstField(w, n);
      [Dec(s[..w])] + DecAll(s[w..], w, n - 1)
  }

  lemma {:induction false} FirstField(w: nat, n: nat)
    requires n > 0
    ensures n * w == w + (n - 1) * w >= w
  {
    MulLe(0, n - 1, w);
  }

  function Zeros(n: nat): (s: seq<bit>)
    ensures |s| == n
  {
    seq(n, _ => 0)
  }

  /** The bits of an octet string. */
  function Bits(a: seq<byte>): (s: seq<bit>)
    ensures |s| == 8 * |a|
  {
    EncAllLength(a, 8);
    EncAll(a, 8)
  }

  // ----- encoding one value

  lemma {:induction false} DecEnc(v: int, w: nat)
    ensures Dec(Enc(v, w)) == Low(v, w)
    decreases w
  {
    if w == 0 {
    } else {
      DecEnc(v / 2, w - 1);
      assert Enc(v, w)[..w - 1] == Enc(v / 2, w - 1);
    }
  }

  lemma {:induction false} EncDec(s: seq<bit>)
    ensures Enc(Dec(s), |s|) == s
  {
    if s == [] {
    } else {
      EncDec(s[..|s| - 1]);
      assert s == s[..|s| - 1] + [s[|s| - 1]];
    }
  }

  lemma {:induction false} DecBound(s: seq<bit>)
    ensures 0 <= Dec(s) < Pow2(|s|)
  {
    if s == [] {
    } else {
      DecBound(s[..|s| - 1]);
    }
  }

  lemma {:induction false} EncConcat(x: int, m: nat, y: int, n: nat)
    requires 0 <= y < Pow2(n)
    ensures Enc(Shl(x, n) + y, m + n) == Enc(x, m) + Enc(y, n)
    decreases n
  {
    if n == 0 {
    } else {
      EncConcat(x, m, y / 2, n - 1);
      Assoc(Enc(x, m), Enc(y / 2, n - 1), [y % 2]);
    }
  }

  /** Only the low w bits of a value are stored. */
  lemma {:induction false} EncLow(v: int, w: nat)
    ensures Enc(v, w) == Enc(Low(v, w), w)
  {
    DecEnc(v, w);
    EncDec(Enc(v, w));
  }

  lemma {:induction false} EncSplit(v: int, m: nat, n: nat)
    ensures Enc(v, m + n) == Enc(Shr(v, n), m) + Enc(v, n)
  {
    ShrLow(v, n);
    EncConcat(Shr(v, n), m, Low(v, n), n);
    EncLow(v, n);
  }

  lemma {:induction false} DecConcat(s: seq<bit>, t: seq<bit>)
    ensures Dec(s + t) == Shl(Dec(s), |t|) + Dec(t)
  {
    if t == [] {
      assert s + t == s;
    } else {
      var u := t[..|t| - 1];
      assert (s + t)[..|s + t| - 1] == s + u;
      DecConcat(s, u);
    }
  }

  lemma {:induction false} EncZero(n: nat)
    ensures Enc(0, n) == Zeros(n)
  {
    if n > 0 {
      EncZero(n - 1);
      assert Zeros(n)[..n - 1] == Zeros(n - 1);
    }
  }

  lemma {:induction false} Assoc<T>(a: seq<T>, b: seq<T>, c: seq<T>)
    ensures (a + b) + c == a + (b + c)
  {
  }

  // ----- runs of fields

  lemma {:induction false} TailOfConcat<T>(a: seq<T>, b: seq<T>)
    requires a != []
    ensures (a + b)[1..] == a[1..] + b
  {
  }

  lemma {:induction false} EncAllConcat(us: seq<int>, vs: seq<int>, w: nat)
    ensures EncAll(us + vs, w) == EncAll(us, w) + EncAll(vs, w)
  {
    if us == [] {
      assert us + vs == vs;
    } else {
      EncAllConcat(us[1..], vs, w);
      TailOfConcat(us, vs);
      Assoc(Enc(us[0], w), EncAll(us[1..], w), EncAll(vs, w));
    }
  }

  lemma {:induction false} EncAllOne(v: int, w: nat)
    ensures EncAll([v], w) == Enc(v, w)
  {
    assert EncAll([v][1..], w) == [];
  }

  lemma {:induction false} SliceOfTail<T>(s: seq<T>, k: nat, i: nat, j: nat)
    requires i <= j && k + j <= |s|
    ensures s[k..][i..j] == s[k + i..k + j]
  {
  }

  function LowAll(vs: seq<int>, w: nat): (r: seq<nat>)
    ensures |r| == |vs|
  {
    seq(|vs|, i requires 0 <= i < |vs| => Low(vs[i], w))
  }

  /** What follows the fields does not matter. */
  lemma {:induction false} DecAllPrefix(s: seq<bit>, rest: seq<bit>, w: nat, n: nat)
    requires n * w <= |s|
    ensures n * w <= |s + rest| && DecAll(s + rest, w, n) == DecAll(s, w, n)
    decreases n
  {
    hide Dec;
    if n > 0 {
      FirstField(w, n);
      assert (s + rest)[..w] == s[..w] && (s + rest)[w..] == s[w..] + rest;
      DecAllPrefix(s[w..], rest, w, n - 1);
    }
  }

  lemma {:induction false} DecAllCons(e: seq<bit>, t: seq<bit>, n: nat)
    requires n * |e| <= |t|
    ensures (n + 1) * |e| <= |e + t|
    ensures DecAll(e + t, |e|, n + 1) == [Dec(e)] + DecAll(t, |e|, n)
  {
    FirstField(|e|, n + 1);
    assert (e + t)[..|e|] == e && (e + t)[|e|..] == t;
  }

  lemma {:induction false} LowAllCons(vs: seq<int>, w: nat)
    requires vs != []
    ensures LowAll(vs, w) == [Low(vs[0], w)] + LowAll(vs[1..], w)
  {
  }

  /** Reading back what was laid down gives each value modulo 2^w. */
  lemma {:induction false} DecEncAll(vs: seq<int>, w: nat, rest: seq<bit>)
    ensures |vs| * w <= |EncAll(vs, w) + rest|
    ensures DecAll(EncAll(vs, w) + rest, w, |vs|) == LowAll(vs, w)
  {
    EncAllLength(vs, w);
    if vs == [] {
    } else {
      var v, tail := vs[0], vs[1..];
      EncAllLength(tail, w);
      DecEncAll(tail, w, rest);
      Assoc(Enc(v, w), EncAll(tail, w), rest);
      DecAllCons(Enc(v, w), EncAll(tail, w) + rest, |tail|);
      DecEnc(v, w);
      LowAllCons(vs, w);
    }
  }

  lemma {:induction false} LowAllIdentity(vs: seq<int>, w: nat)
    requires forall i :: 0 <= i < |vs| ==> 0 <= vs[i] < Pow2(w)
    ensures LowAll(vs, w) == vs
  {
    forall i | 0 <= i < |vs| ensures Low(vs[i], w) == vs[i] {
      LowIdentity(vs[i], w);
    }
  }

  // ----- octet strings

  lemma {:induction false} BitsConcat(a: seq<byte>, b: seq<byte>)
    ensures Bits(a + b) == Bits(a) + Bits(b)
  {
    EncAllConcat(a, b, 8);
  }

  lemma {:induction false} BitsSlice(a: seq<byte>, i: nat, j: nat)
    requires i <= j <= |a|
    ensures Bits(a[i..j]) == Bits(a)[8 * i..8 * j]
  {
    assert a == a[..i] + a[i..j] + a[j..];
    BitsConcat(a[..i] + a[i..j], a[j..]);
    BitsConcat(a[..i], a[i..j]);
  }

  lemma {:induction false} BitsOfByte(a: seq<byte>, i: nat)
    requires i < |a|
    ensures Bits(a)[8 * i..8 * i + 8] == Enc(a[i], 8)
  {
    BitsSlice(a, i, i + 1);
    assert a[i..i + 1] == [a[i]];
    EncAllOne(a[i], 8);
  }

  lemma {:induction false} DecByte(b: byte)
    ensures Dec(Enc(b, 8)) == b
  {
    DecEnc(b, 8);
    Pow2Small();
    LowIdentity(b, 8);
  }

  /** The octets of a bit string. */
  function Gathered(s: seq<bit>): (a: seq<byte>)
    requires |s| % 8 == 0
  {
    if s == [] then [] else
    DecBelow256(s[..8]);
    [Dec(s[..8])] + Gathered(s[8..])
  }

  lemma {:induction false} DecBelow256(s: seq<bit>)
    requires |s| == 8
    ensures Dec(s) < 256
  {
    DecBound(s);
    Pow2Small();
  }

  lemma {:induction false} BitsGathered(s: seq<bit>)
    requires |s| % 8 == 0
    ensures Bits(Gathered(s)) == s
  {
    hide Dec, Enc;
    if s != [] {
      var b := Gathered(s)[0];
      BitsGathered(s[8..]);
      EncDec(s[..8]);
      assert s == s[..8] + s[8..];
      BitsConcat([b], Gathered(s[8..]));
      EncAllOne(b, 8);
    }
  }

  lemma {:induction false} FourOctets(a: byte, b: byte, c: byte, d: byte)
    ensures Dec(Bits([a, b, c, d])) == ((a * 256 + b) * 256 + c) * 256 + d
  {
    hide Dec, Enc, Shl, Pow2, Bits;
    var s := Bits([a, b, c, d]);
    BitsOfByte([a, b, c, d], 0);
    BitsOfByte([a, b, c, d], 1);
    BitsOfByte([a, b, c, d], 2);
    BitsOfByte([a, b, c, d], 3);
    assert s == Enc(a, 8) + Enc(b, 8) + Enc(c, 8) + Enc(d, 8);
    DecByte(a);
    DecByte(b);
    DecByte(c);
    DecByte(d);
    DecConcat(Enc(a, 8), Enc(b, 8));
    DecConcat(Enc(a, 8) + Enc(b, 8), Enc(c, 8));
    DecConcat(Enc(a, 8) + Enc(b, 8) + Enc(c, 8), Enc(d, 8));
    ShlIsMul(a, 8);
    ShlIsMul(a * 256 + b, 8);
    ShlIsMul((a * 256 + b) * 256 + c, 8);
    Pow2Small();
  }

  /** Octet strings with the same bits are the same. */
  lemma {:induction false} BitsInjective(a: seq<byte>, b: seq<byte>)
    requires Bits(a) == Bits(b)
    ensures a == b
  {
    assert |a| == |b|;
    forall i | 0 <= i < |a| ensures a[i] == b[i] {
      BitsOfByte(a, i);
      BitsOfByte(b, i);
      DecByte(a[i]);
      DecByte(b[i]);
    }
  }

  // ----- whole octets

  function Up8(n: nat): (m: nat)
    ensures m % 8 == 0 && n <= m < n + 8
  {
    n + (8 - n % 8) % 8
  }

  lemma {:induction false} Whole(a: nat, b: nat)
    requires a % 8 == 0 && b % 8 == 0
    ensures (a + b) % 8 == 0
  {
    assert a + b == 8 * (a / 8 + b / 8);
  }

  /** Whole octets before a stretch do not change its padding. */
  lemma {:induction false} Up8After(k: nat, n: nat)
    requires k % 8 == 0
    ensures Up8(k + n) == k + Up8(n)
  {
    var q := k / 8;
    assert k + n == 8 * q + n;
    assert (k + n) % 8 == n % 8;
  }

  lemma {:induction false} Up8Inside(k: nat, n: nat, size: nat)
    requires k % 8 == 0 && size % 8 == 0 && k + n <= size
    ensures k + Up8(n) <= size && (k + Up8(n)) % 8 == 0
  {
    var a, b, c := k / 8, size / 8, Up8(n) / 8;
    assert k == 8 * a && size == 8 * b && Up8(n) == 8 * c;
    assert k + Up8(n) == 8 * (a + c);
  }

  function Pad8(s: seq<bit>): (r: seq<bit>)
    ensures |r| == Up8(|s|)
  {
    s + Zeros(Up8(|s|) - |s|)
  }
}
