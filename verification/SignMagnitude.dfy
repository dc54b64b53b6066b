/** Signed fields as GRIB stores them: a sign bit, then the magnitude. */
module SignMagnitude {
  import opened Shifts
  import opened BitString

  function SignedBits(v: int, n: nat): (s: seq<bit>)
    requires n >= 1
    ensures |s| == n
  {
    if v >= 0 then Enc(v, n) else [1] + Enc(-v, n - 1)
  }

  function SignedValue(s: seq<bit>): (v: int)
    requires |s| >= 1
  {
    var m: int := Dec(s[1..]);
    if s[0] == 1 then -m else m
  }

  function Abs(v: int): (a: nat)
    ensures a == v || a == -v
  {
    if v < 0 then -v else v
  }

  lemma {:induction false} SignedRoundTrip(v: int, n: nat)
    requires n >= 1 && Abs(v) < Pow2(n - 1)
    ensures SignedValue(SignedBits(v, n)) == v
  {
    var s, a := SignedBits(v, n), Abs(v);
    DecEnc(a, n - 1);
    LowIdentity(a, n - 1);
    if v >= 0 {
      EncSplit(v, 1, n - 1);
      assert Enc(Shr(v, n - 1), 1) == [0];
    }
    assert s[1..] == Enc(a, n - 1);
  }
}
