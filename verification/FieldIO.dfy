/** Fields appended one after another to an octet array, and signed fields read back. */
module FieldIO {
  import opened Shifts
  import opened BitString
  import opened BitIO
  import opened SignMagnitude

  /** The octets hold `done`, and after it what they held at first. */
  ghost predicate Holds(cpack: array<byte>, s: seq<bit>, done: seq<bit>)
    reads cpack
  {
    |done| <= |s| == 8 * cpack.Length && Bits(cpack[..]) == Put(s, 0, done)
  }

  lemma {:induction false} PutMore(s: seq<bit>, done: seq<bit>, e: seq<bit>)
    requires |done + e| <= |s|
    ensures Put(Put(s, 0, done), |done|, e) == Put(s, 0, done + e)
  {
    PutPut(s, 0, done, e);
  }

  /** One value of n bits. */
  method Append(cpack: array<byte>, v: int, n: nat, ghost s: seq<bit>, ghost done: seq<bit>, iofst: nat)
    requires n >= 1 && Holds(cpack, s, done) && iofst == |done| && iofst + n <= 8 * cpack.Length
    modifies cpack
    ensures Holds(cpack, s, done + Enc(v, n))
  {
    hide Bits, Put, Enc;
    PutField(cpack, v, iofst + n - 1, n);
    PutMore(s, done, Enc(v, n));
  }

  method AppendSigned(cpack: array<byte>, v: int, n: nat, ghost s: seq<bit>, ghost done: seq<bit>, iofst: nat)
    requires n >= 2 && Holds(cpack, s, done) && iofst == |done| && iofst + n <= 8 * cpack.Length
    modifies cpack
    ensures Holds(cpack, s, done + SignedBits(v, n))
  {
    hide Holds, Enc;
    if v >= 0 {
      Append(cpack, v, n, s, done, iofst);
    } else {
      Append(cpack, 1, 1, s, done, iofst);
      Append(cpack, -v, n - 1, s, done + Enc(1, 1), iofst + 1);
      Assoc(done, Enc(1, 1), Enc(-v, n - 1));
      OneBit();
    }
  }

  lemma {:induction false} OneBit()
    ensures Enc(1, 1) == [1]
  {
  }

  /** Values of w bits each. */
  method AppendAll(cpack: array<byte>, vs: seq<int>, w: nat, ghost s: seq<bit>, ghost done: seq<bit>, iofst: nat)
    requires w >= 1 && Holds(cpack, s, done) && iofst == |done| && |done + EncAll(vs, w)| <= |s|
    modifies cpack
    ensures Holds(cpack, s, done + EncAll(vs, w))
  {
    hide Bits, Put, EncAll;
    EncAllLength(vs, w);
    SbitsRun(cpack, vs, iofst, w);
    PutMore(s, done, EncAll(vs, w));
  }

  /** Zeros up to the next octet after a stretch of n bits. */
  method AppendPad(cpack: array<byte>, n: nat, ghost s: seq<bit>, ghost done: seq<bit>, iofst0: nat)
    returns (iofst: nat)
    requires Holds(cpack, s, done) && iofst0 == |done| && |done| + Up8(n) - n <= |s|
    modifies cpack
    ensures iofst == iofst0 + Up8(n) - n && Holds(cpack, s, done + Zeros(Up8(n) - n))
  {
    hide Holds, Zeros;
    iofst := iofst0;
    if n % 8 != 0 {
      var left := 8 - n % 8;
      EncZero(left);
      HoldsSize(cpack, s, done);
      Append(cpack, 0, left, s, done, iofst);
      iofst := iofst + left;
    } else {
      assert Zeros(0) == [] && done + [] == done;
    }
  }

  lemma {:induction false} HoldsSize(cpack: array<byte>, s: seq<bit>, done: seq<bit>)
    requires Holds(cpack, s, done)
    ensures |s| == 8 * cpack.Length
  {
  }

  lemma {:induction false} HoldsNothing(cpack: array<byte>)
    ensures Holds(cpack, Bits(cpack[..]), [])
  {
    var s := Bits(cpack[..]);
    assert s == [] + [] + s[0..];
  }

  /** A sign bit, then n - 1 bits of magnitude. */
  method ReadSigned(cpack: array<byte>, iofst: nat, n: nat) returns (v: int)
    requires n >= 2 && iofst + n <= 8 * cpack.Length
    ensures v == SignedValue(Bits(cpack[..])[iofst..iofst + n])
  {
    ghost var s := Bits(cpack[..]);
    var isign := GetField(cpack, iofst, 1);
    v := GetField(cpack, iofst + 1, n - 1);
    SignBit(s, iofst, n);
    if isign == 1 { v := -v; }
  }

  lemma {:induction false} SignBit(s: seq<bit>, i: nat, n: nat)
    requires n >= 2 && i + n <= |s|
    ensures Dec(s[i..i + 1]) == s[i..i + n][0]
    ensures s[i..i + n][1..] == s[i + 1..i + n]
  {
    assert s[i..i + 1] == [s[i]];
    assert [s[i]][..0] == [];
  }
}
