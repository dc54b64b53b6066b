/** What `g2_info` accepts, in terms of the octets of the message. */
module MessageLayout {
  import opened Options
  import opened Shifts
  import opened BitString
  import opened Templates
  import opened SectionFormat
  import opened Sections
  import opened Message
  import opened MessageBuilder
  import opened MessageWalk
  import opened MessageInfo

  /** The number in n octets from index i on, the most significant first. */
  ghost function BigEndian(a: seq<byte>, i: nat, n: nat): (v: nat)
    requires i + n <= |a|
  {
    if n == 0 then 0 else 256 * BigEndian(a, i, n - 1) + a[i + n - 1]
  }

  lemma {:induction false} BigEndianIsDec(a: seq<byte>, i: nat, n: nat)
    requires i + n <= |a|
    ensures |Bits(a)| == 8 * |a| && BigEndian(a, i, n) == Dec(Bits(a)[8 * i..8 * (i + n)])
  {
    hide Bits, Dec, Shl, Enc;
    BitsSize(a);
    if n == 0 {
      assert Bits(a)[8 * i..8 * i] == [];
      DecNothing();
    } else {
      var s, j := Bits(a), i + n - 1;
      BigEndianIsDec(a, i, n - 1);
      assert s[8 * i..8 * (i + n)] == s[8 * i..8 * j] + s[8 * j..8 * j + 8];
      BitsOfByte(a, j);
      DecByte(a[j]);
      DecConcat(s[8 * i..8 * j], s[8 * j..8 * j + 8]);
      ByEight(Dec(s[8 * i..8 * j]));
    }
  }

  lemma {:induction false} BitsSize(a: seq<byte>)
    ensures |Bits(a)| == 8 * |a|
  {
    EncAllLength(a, 8);
  }

  lemma {:induction false} DecNothing()
    ensures Dec([]) == 0
  {
  }

  lemma {:induction false} ByEight(v: int)
    ensures Shl(v, 8) == 256 * v
  {
    ShlIsMul(v, 8);
    assert Pow2(8) == 256;
  }

  /** A section from index i up to index j: its length, five or more, in four octets, then its number. */
  ghost predicate SectionFrom(a: seq<byte>, i: nat, j: nat)
  {
    i + 5 <= j <= |a| && BigEndian(a, i, 4) == j - i
  }

  ghost predicate Sevens(a: seq<byte>, i: nat)
  {
    i + 4 <= |a| && a[i..i + 4] == SEVENS
  }

  /** The last section ends the octets, or just "7777" follows. */
  ghost predicate Closed(a: seq<byte>, i: nat)
  {
    hide Sevens;
    i == |a| || (i + 4 == |a| && Sevens(a, i))
  }

  /** Sections numbered 2 to 7 stand end to end at the marks, none of them begins with "7777", and then the end. */
  ghost predicate Chain(a: seq<byte>, marks: seq<nat>)
  {
    hide SectionFrom, Sevens, Closed;
    && marks != [] && Closed(a, marks[|marks| - 1])
    && forall k :: 0 <= k < |marks| - 1 ==> Link(a, marks[k], marks[k + 1])
  }

  ghost predicate Link(a: seq<byte>, i: nat, j: nat)
  {
    hide Sevens;
    SectionFrom(a, i, j) && 2 <= a[i + 4] <= 7 && !Sevens(a, i)
  }

  /** How many of the sections at the marks have the number. */
  ghost function HowMany(a: seq<byte>, marks: seq<nat>, number: nat): (n: nat)
  {
    if |marks| < 2 then 0
    else (if marks[0] + 4 < |a| && a[marks[0] + 4] == number then 1 else 0) + HowMany(a, marks[1..], number)
  }

  // ----- the walk against the chain

  lemma {:induction false} AtSevens(a: seq<byte>, i: nat)
    requires i + 4 <= |a|
    ensures |Bits(a)| == 8 * |a| && (Bits(a)[8 * i..8 * i + 32] == Bits(SEVENS) <==> Sevens(a, i))
  {
    hide Bits;
    BitsSize(a);
    BitsSlice(a, i, i + 4);
    if Bits(a)[8 * i..8 * i + 32] == Bits(SEVENS) { BitsInjective(a[i..i + 4], SEVENS); }
  }

  lemma {:induction false} RestAtEnd(a: seq<byte>, p: nat, numlocal: nat, numfields: nat)
    requires p <= |a| && Closed(a, p)
    ensures Rest(Bits(a), p, numlocal, numfields) == Got((numlocal, numfields))
  {
    hide Bits, Dec, Sevens;
    BitsSize(a);
    if p + 4 <= |a| { AtSevens(a, p); }
  }

  lemma {:induction false} RestOver(a: seq<byte>, p: nat, q: nat, numlocal: nat, numfields: nat)
    requires Link(a, p, q)
    ensures Rest(Bits(a), p, numlocal, numfields) ==
      Rest(Bits(a), q, numlocal + (if a[p + 4] == 2 then 1 else 0), numfields + if a[p + 4] == 4 then 1 else 0)
  {
    hide Bits, Dec, Sevens, BigEndian;
    BitsSize(a);
    AtSevens(a, p);
    BigEndianIsDec(a, p, 4);
    OneOctet(a, p + 4);
  }

  lemma {:induction false} OneOctet(a: seq<byte>, i: nat)
    requires i < |a|
    ensures |Bits(a)| == 8 * |a| && Dec(Bits(a)[8 * i..8 * i + 8]) == a[i]
  {
    hide Bits, Dec;
    BitsSize(a);
    BitsOfByte(a, i);
    DecByte(a[i]);
  }

  /** A chain is walked to its end, and its sections 2 and 4 are counted. */
  lemma {:induction false} ChainWalked(a: seq<byte>, marks: seq<nat>, numlocal: nat, numfields: nat)
    requires Chain(a, marks)
    ensures Rest(Bits(a), marks[0], numlocal, numfields) ==
      Got((numlocal + HowMany(a, marks, 2), numfields + HowMany(a, marks, 4)))
    decreases |marks|
  {
    hide Bits, Rest, Link, Closed;
    if |marks| == 1 {
      ClosedInside(a, marks[0]);
      RestAtEnd(a, marks[0], numlocal, numfields);
    } else {
      var p, t := marks[0], marks[1..];
      assert Link(a, marks[0], marks[1]);
      LinkInside(a, p, marks[1]);
      assert Chain(a, t) by {
        forall k | 0 <= k < |t| - 1 ensures Link(a, t[k], t[k + 1]) { assert Link(a, marks[k + 1], marks[k + 2]); }
      }
      RestOver(a, p, marks[1], numlocal, numfields);
      ChainWalked(a, t, numlocal + (if a[p + 4] == 2 then 1 else 0), numfields + if a[p + 4] == 4 then 1 else 0);
    }
  }

  lemma {:induction false} ClosedInside(a: seq<byte>, i: nat)
    requires Closed(a, i)
    ensures i <= |a|
  {
  }

  lemma {:induction false} LinkInside(a: seq<byte>, i: nat, j: nat)
    requires Link(a, i, j)
    ensures i + 5 <= j <= |a|
  {
  }

  /** A walk that finds no fault is along a chain. */
  lemma {:induction false} WalkIsChain(a: seq<byte>, p: nat, numlocal: nat, numfields: nat) returns (marks: seq<nat>)
    requires p <= |a| && Rest(Bits(a), p, numlocal, numfields).Got?
    ensures Chain(a, marks) && marks[0] == p
    decreases |a| - p
  {
    hide Bits, Dec, Sevens, BigEndian;
    BitsSize(a);
    if p + 4 <= |a| { AtSevens(a, p); }
    if p == |a| || Sevens(a, p) {
      marks := [p];
    } else {
      BigEndianIsDec(a, p, 4);
      var lensec := BigEndian(a, p, 4);
      OneOctet(a, p + 4);
      assert Link(a, p, p + lensec);
      var n := a[p + 4];
      var t := WalkIsChain(a, p + lensec, numlocal + (if n == 2 then 1 else 0), numfields + if n == 4 then 1 else 0);
      marks := [p] + t;
      ChainCons(a, p, t);
    }
  }

  lemma {:induction false} ChainCons(a: seq<byte>, p: nat, t: seq<nat>)
    requires Chain(a, t) && Link(a, p, t[0])
    ensures Chain(a, [p] + t)
  {
    hide Link, Closed;
    var marks := [p] + t;
    forall k | 0 <= k < |marks| - 1 ensures Link(a, marks[k], marks[k + 1]) {
      if k > 0 { assert Link(a, t[k - 1], t[k]); }
    }
  }

  lemma {:induction false} ChainBegins(a: seq<byte>, marks: seq<nat>)
    requires Chain(a, marks)
    ensures marks != []
  {
  }

  // ----- acceptance

  /**
   * The octets of a message: edition 2, no more octets announced than there are, section 1 of
   * sixteen octets or more right after section 0, and a chain of sections from its end.
   */
  ghost predicate LaidOut(a: seq<byte>, marks: seq<nat>)
  {
    hide Chain, BigEndian;
    && |a| >= 37 && a[7] == 2 && BigEndian(a, 12, 4) <= |a|
    && a[20] == 1 && 16 <= BigEndian(a, 16, 4)
    && Chain(a, marks) && marks != [] && marks[0] == 16 + BigEndian(a, 16, 4) && marks[0] <= |a|
  }

  lemma {:induction false} HeadOctets(a: seq<byte>)
    requires |a| >= 21
    ensures var s := Bits(a);
      |s| == 8 * |a| && Dec(s[96..128]) == BigEndian(a, 12, 4) && Dec(s[56..64]) == a[7] && Dec(s[160..168]) == a[20] &&
      Dec(s[128..160]) == BigEndian(a, 16, 4) && (FetchList(s[168..], IDENT).Some? <==> |a| >= 37)
  {
    hide *;
    BitsSize(a);
    BigEndianIsDec(a, 12, 4);
    BigEndianIsDec(a, 16, 4);
    OneOctet(a, 7);
    OneOctet(a, 20);
    IdentFetched(Bits(a));
  }

  lemma {:induction false} IdentFetched(s: seq<bit>)
    requires |s| >= 168
    ensures FetchList(s[168..], IDENT).Some? <==> |s| >= 296
  {
    hide *;
    Fetchable(s[168..], IDENT);
    IdentWidth();
  }

  lemma {:induction false} IdentWidth()
    ensures ListWidth(IDENT) == 128
  {
    hide Bits;
  }

  /** Octets are accepted exactly when they are laid out as a message. */
  lemma {:induction false} AcceptedExactly(a: seq<byte>)
    ensures InfoOf(Bits(a)).Accepted? <==> exists marks :: LaidOut(a, marks)
  {
    hide Bits, Dec, Rest, FetchList, Chain, BigEndian;
    BitsSize(a);
    if |a| >= 21 {
      HeadOctets(a);
      if InfoOf(Bits(a)).Accepted? {
        var marks := WalkIsChain(a, 16 + BigEndian(a, 16, 4), 0, 0);
        ChainBegins(a, marks);
        assert LaidOut(a, marks);
      } else if marks :| LaidOut(a, marks) {
        ChainWalked(a, marks, 0, 0);
      }
    }
  }

  /** What is reported is the announced length and the sections of the chain. */
  lemma {:induction false} AcceptedReports(a: seq<byte>, marks: seq<nat>)
    requires LaidOut(a, marks)
    ensures var r := InfoOf(Bits(a));
      r.Accepted? && r.disc == a[6] && r.lengrib == BigEndian(a, 12, 4) && r.numlocal == HowMany(a, marks, 2) &&
      r.numfields == HowMany(a, marks, 4)
  {
    hide Bits, Dec, Rest, FetchList, Chain, BigEndian, HowMany;
    BitsSize(a);
    HeadOctets(a);
    OneOctet(a, 6);
    ChainWalked(a, marks, 0, 0);
  }

  /** No proper beginning of a finished message is accepted. */
  lemma {:induction false} BeginningRefused(m: Msg, k: nat)
    requires Total(m) < MAXLEN && 0 <= m.disc < 256 && k < Total(m)
    ensures k <= |MsgBits(m)| / 8 && !InfoOf(MsgBits(m)[..8 * k]).Accepted?
  {
    hide Dec, Rest, FetchList, MsgBits, Total;
    InfoHead(m);
    var s := MsgBits(m)[..8 * k];
    if |s| >= 128 { assert s[96..128] == MsgBits(m)[96..128]; }
  }
}
