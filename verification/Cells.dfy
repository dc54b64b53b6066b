/** Grid points of a field: data, or missing in one of two ways. */
module Cells {
  import opened Extremes

  datatype Cell = Data(v: int) | Primary | Secondary

  /** The data values, in order: what `misspack` gathers into jfld. */
  function DataOf(cs: seq<Cell>): (ds: seq<int>)
    ensures |ds| <= |cs|
  {
    if cs == [] then []
    else if cs[0].Data? then [cs[0].v] + DataOf(cs[1..])
    else DataOf(cs[1..])
  }

  /** The same pattern of missing points, with ds as the data. */
  function Refill(cs: seq<Cell>, ds: seq<int>): (r: seq<Cell>)
    requires |ds| == |DataOf(cs)|
    ensures |r| == |cs|
  {
    if cs == [] then []
    else if cs[0].Data? then [Data(ds[0])] + Refill(cs[1..], ds[1..])
    else [cs[0]] + Refill(cs[1..], ds)
  }

  /** missopt 0 allows data only, 1 adds primary missing points, 2 secondary ones too. */
  ghost predicate Allowed(cs: seq<Cell>, missopt: nat)
  {
    && (missopt == 0 ==> forall i :: 0 <= i < |cs| ==> cs[i].Data?)
    && (missopt == 1 ==> Secondary !in cs)
  }

  lemma {:induction false} DataOfRefill(cs: seq<Cell>, ds: seq<int>)
    requires |ds| == |DataOf(cs)|
    ensures DataOf(Refill(cs, ds)) == ds
  {
    if cs == [] {
    } else {
      DataOfRefill(cs[1..], if cs[0].Data? then ds[1..] else ds);
      var r := Refill(cs, ds);
      assert r[1..] == Refill(cs[1..], if cs[0].Data? then ds[1..] else ds);
    }
  }

  lemma {:induction false} RefillTwice(cs: seq<Cell>, ds: seq<int>, es: seq<int>)
    requires |ds| == |es| == |DataOf(cs)|
    ensures |DataOf(Refill(cs, ds))| == |es|
    ensures Refill(Refill(cs, ds), es) == Refill(cs, es)
  {
    DataOfRefill(cs, ds);
    if cs == [] {
    } else {
      var d', e' := if cs[0].Data? then ds[1..] else ds, if cs[0].Data? then es[1..] else es;
      RefillTwice(cs[1..], d', e');
      var r := Refill(cs, ds);
      assert r[1..] == Refill(cs[1..], d');
    }
  }

  lemma {:induction false} RefillSame(cs: seq<Cell>)
    ensures Refill(cs, DataOf(cs)) == cs
  {
    if cs == [] {
    } else {
      RefillSame(cs[1..]);
    }
  }

  /** Restoring the data of a refilled field restores the field. */
  lemma {:induction false} RefillBack(cs: seq<Cell>, ds: seq<int>)
    requires |ds| == |DataOf(cs)|
    ensures |DataOf(Refill(cs, ds))| == |ds|
    ensures Refill(Refill(cs, ds), DataOf(cs)) == cs
  {
    RefillTwice(cs, ds, DataOf(cs));
    RefillSame(cs);
  }

  lemma {:induction false} RefillClass(cs: seq<Cell>, ds: seq<int>, i: nat)
    requires |ds| == |DataOf(cs)| && i < |cs|
    ensures Refill(cs, ds)[i].Data? == cs[i].Data?
    ensures !cs[i].Data? ==> Refill(cs, ds)[i] == cs[i]
    ensures cs[i].Data? ==> Refill(cs, ds)[i].v in ds
  {
    if i > 0 {
      var d' := if cs[0].Data? then ds[1..] else ds;
      RefillClass(cs[1..], d', i - 1);
    }
  }

  lemma {:induction false} RefillAllowed(cs: seq<Cell>, ds: seq<int>, missopt: nat)
    requires |ds| == |DataOf(cs)| && Allowed(cs, missopt)
    ensures Allowed(Refill(cs, ds), missopt)
  {
    forall i | 0 <= i < |cs|
      ensures Refill(cs, ds)[i].Data? == cs[i].Data? && (!cs[i].Data? ==> Refill(cs, ds)[i] == cs[i])
    {
      RefillClass(cs, ds, i);
    }
  }

  lemma {:induction false} DataOfConcat(cs: seq<Cell>, es: seq<Cell>)
    ensures DataOf(cs + es) == DataOf(cs) + DataOf(es)
  {
    if cs == [] {
      assert cs + es == es;
    } else {
      assert (cs + es)[1..] == cs[1..] + es;
      DataOfConcat(cs[1..], es);
    }
  }

  lemma {:induction false} DataOfMember(cs: seq<Cell>, i: nat)
    requires i < |cs| && cs[i].Data?
    ensures cs[i].v in DataOf(cs)
  {
    if i > 0 { DataOfMember(cs[1..], i - 1); }
  }

  lemma {:induction false} DataOfSource(cs: seq<Cell>, v: int)
    requires v in DataOf(cs)
    ensures Data(v) in cs
  {
    if cs[0].Data? && cs[0].v == v {
    } else {
      DataOfSource(cs[1..], v);
    }
  }

  // ----- the map of missing points

  function ClassOf(c: Cell): (m: int)
  {
    match c
    case Data(_) => 0
    case Primary => 1
    case Secondary => 2
  }

  /** The map of missing points kept beside the data. */
  function Classes(cs: seq<Cell>): (ms: seq<int>)
    ensures |ms| == |cs|
  {
    seq(|cs|, i requires 0 <= i < |cs| => ClassOf(cs[i]))
  }

  lemma {:induction false} SnocCell(cs: seq<Cell>, k: nat)
    requires k < |cs|
    ensures DataOf(cs[..k + 1]) == DataOf(cs[..k]) + (if cs[k].Data? then [cs[k].v] else [])
    ensures Classes(cs[..k + 1]) == Classes(cs[..k]) + [ClassOf(cs[k])]
  {
    assert cs[..k + 1] == cs[..k] + [cs[k]];
    DataOfConcat(cs[..k], [cs[k]]);
    assert [cs[k]][1..] == [] && DataOf([]) == [];
  }

  lemma {:induction false} NoCells()
    ensures DataOf([]) == [] && Classes([]) == []
  {
  }

  lemma {:induction false} DataOnly(cs: seq<Cell>)
    requires forall i :: 0 <= i < |cs| ==> cs[i].Data?
    ensures |DataOf(cs)| == |cs| && forall i :: 0 <= i < |cs| ==> DataOf(cs)[i] == cs[i].v
    ensures Classes(cs) == seq(|cs|, _ => 0)
  {
    if cs != [] { DataOnly(cs[1..]); }
  }

  lemma {:induction false} MissingOnly(cs: seq<Cell>)
    requires forall i :: 0 <= i < |cs| ==> !cs[i].Data?
    ensures DataOf(cs) == []
  {
    if cs != [] { MissingOnly(cs[1..]); }
  }

  lemma {:induction false} MoreCells(done: seq<Cell>, cs: seq<Cell>)
    ensures DataOf(done + cs) == DataOf(done) + DataOf(cs) && Classes(done + cs) == Classes(done) + Classes(cs)
  {
    DataOfConcat(done, cs);
  }

  lemma {:induction false} ClassAt(cs: seq<Cell>, n: nat)
    requires n < |cs|
    ensures Classes(cs)[n] == ClassOf(cs[n])
  {
  }

  // ----- consecutive groups

  function Split(cs: seq<Cell>, lens: seq<nat>): (gs: seq<seq<Cell>>)
    requires Sum(lens) == |cs|
    ensures |gs| == |lens|
    ensures forall i :: 0 <= i < |gs| ==> |gs[i]| == lens[i]
  {
    if lens == [] then [] else [cs[..lens[0]]] + Split(cs[lens[0]..], lens[1..])
  }

  function Flatten(gs: seq<seq<Cell>>): (cs: seq<Cell>)
  {
    if gs == [] then [] else gs[0] + Flatten(gs[1..])
  }

  lemma {:induction false} FlattenSplit(cs: seq<Cell>, lens: seq<nat>)
    requires Sum(lens) == |cs|
    ensures Flatten(Split(cs, lens)) == cs
  {
    if lens == [] {
    } else {
      FlattenSplit(cs[lens[0]..], lens[1..]);
      assert Split(cs, lens)[1..] == Split(cs[lens[0]..], lens[1..]);
      assert cs == cs[..lens[0]] + cs[lens[0]..];
    }
  }

  lemma {:induction false} SplitMembers(cs: seq<Cell>, lens: seq<nat>, i: nat, c: Cell)
    requires Sum(lens) == |cs| && i < |lens| && c in Split(cs, lens)[i]
    ensures c in cs
  {
    if i > 0 { SplitMembers(cs[lens[0]..], lens[1..], i - 1, c); }
  }

  lemma {:induction false} SplitCovers(cs: seq<Cell>, lens: seq<nat>, k: nat) returns (i: nat)
    requires Sum(lens) == |cs| && k < |cs|
    ensures i < |lens| && cs[k] in Split(cs, lens)[i]
  {
    if k < lens[0] {
      i := 0;
      assert cs[k] == cs[..lens[0]][k];
    } else {
      var j := SplitCovers(cs[lens[0]..], lens[1..], k - lens[0]);
      i := j + 1;
    }
  }
}
