/**
 * `gb2_skvar`: binary search of a parameter table whose comparison remembers the last row with
 * the right discipline, category and identifier, to fall back on.
 */
module ParameterSearch {
  import opened Options

  /** A row of the table: its key, and what else it holds. */
  datatype Row = Row(discpln: int, categry: int, paramtr: int, pdtnmbr: int, info: string)

  predicate SameTriple(a: Row, b: Row)
  {
    a.discpln == b.discpln && a.categry == b.categry && a.paramtr == b.paramtr
  }

  /** The order of the table: discipline, category, identifier, template. */
  predicate Less(a: Row, b: Row)
  {
    a.discpln < b.discpln || (a.discpln == b.discpln &&
      (a.categry < b.categry || (a.categry == b.categry &&
        (a.paramtr < b.paramtr || (a.paramtr == b.paramtr && a.pdtnmbr < b.pdtnmbr)))))
  }

  ghost predicate Sorted(table: seq<Row>)
  {
    forall i, j :: 0 <= i < j < |table| ==> Less(table[i], table[j])
  }

  /** The key belongs between rows p - 1 and p. */
  ghost predicate InsertionPoint(table: seq<Row>, key: Row, p: nat)
  {
    && p <= |table|
    && (forall i :: 0 <= i < p ==> Less(table[i], key))
    && (forall i :: p <= i < |table| ==> Less(key, table[i]))
  }

  /** A row between two with the same triple has it too. */
  lemma {:induction false} Between(a: Row, b: Row, c: Row)
    requires Less(a, b) && Less(b, c) && SameTriple(a, c)
    ensures SameTriple(a, b)
  {
  }

  class Searcher {
    const table: seq<Row>
    var lastHit: Option<nat>

    constructor (table: seq<Row>)
      ensures this.table == table && lastHit == None
    {
      this.table := table;
      lastHit := None;
    }

    /** The sign of key - row i; a row with the key's triple is remembered. */
    method Compare(key: Row, i: nat) returns (c: int)
      requires i < |table|
      modifies this
      ensures c < 0 <==> Less(key, table[i])
      ensures c > 0 <==> Less(table[i], key)
      ensures lastHit == if SameTriple(table[i], key) then Some(i) else old(lastHit)
    {
      var elt := table[i];
      if key.discpln < elt.discpln { return -1; }
      if key.discpln > elt.discpln { return 1; }
      if key.categry < elt.categry { return -1; }
      if key.categry > elt.categry { return 1; }
      if key.paramtr < elt.paramtr { return -1; }
      if key.paramtr > elt.paramtr { return 1; }
      lastHit := Some(i);
      c := if key.pdtnmbr < elt.pdtnmbr then -1 else if key.pdtnmbr > elt.pdtnmbr then 1 else 0;
    }

    /** The remembered row is next to the open interval, and a neighbour with the triple has been seen. */
    ghost predicate Near(key: Row, lo: nat, hi: nat)
      reads this
      requires lo <= hi <= |table|
    {
      && (lastHit.Some? ==>
            && (lastHit.value == lo - 1 || lastHit.value == hi)
            && lastHit.value < |table| && SameTriple(table[lastHit.value], key))
      && (lastHit.None? ==>
            && (lo > 0 ==> !SameTriple(table[lo - 1], key))
            && (hi < |table| ==> !SameTriple(table[hi], key)))
    }

    /** `bsearch`, for any choice of the element to compare with. */
    method Search(key: Row) returns (entry: Option<nat>, ghost p: nat)
      requires Sorted(table) && lastHit == None
      modifies this
      ensures entry.Some? ==> entry.value < |table| && !Less(key, table[entry.value]) && !Less(table[entry.value], key)
      ensures entry.Some? ==> lastHit == entry
      ensures entry.None? ==> InsertionPoint(table, key, p) && Near(key, p, p)
    {
      var lo, hi := 0, |table|;
      while lo < hi
        invariant 0 <= lo <= hi <= |table|
        invariant forall i :: 0 <= i < lo ==> Less(table[i], key)
        invariant forall i :: hi <= i < |table| ==> Less(key, table[i])
        invariant Near(key, lo, hi)
        decreases hi - lo
      {
        var mid :| lo <= mid < hi;
        var c := Compare(key, mid);
        if c == 0 {
          return Some(mid), mid;
        }
        if c < 0 {
          if hi < |table| && SameTriple(key, table[hi]) { Between(key, table[mid], table[hi]); }
          hi := mid;
        } else {
          if lo > 0 && SameTriple(table[lo - 1], key) { Between(table[lo - 1], table[mid], key); }
          lo := mid + 1;
        }
      }
      return None, lo;
    }
  }

  /** The table has a row with the key's triple. */
  ghost predicate HasTriple(table: seq<Row>, key: Row)
  {
    exists i :: 0 <= i < |table| && SameTriple(table[i], key)
  }

  ghost predicate HasExact(table: seq<Row>, key: Row)
  {
    exists i :: 0 <= i < |table| && SameTriple(table[i], key) && table[i].pdtnmbr == key.pdtnmbr
  }

  /** Rows with the triple reach up to the insertion point. */
  lemma {:induction false} NeighbourHasTriple(table: seq<Row>, key: Row, p: nat)
    requires Sorted(table) && InsertionPoint(table, key, p) && HasTriple(table, key)
    ensures (p > 0 && SameTriple(table[p - 1], key)) || (p < |table| && SameTriple(table[p], key))
  {
    var i :| 0 <= i < |table| && SameTriple(table[i], key);
    if i < p - 1 {
      Between(table[i], table[p - 1], key);
    } else if p < i {
      Between(key, table[p], table[i]);
    }
  }

  /**
   * `gb2_skvar` on a sorted table: 0 for the exact row, -1 when no row has the triple; otherwise
   * a row next to where the key belongs, -2 for the one before and -3 for the one after.
   */
  method FindParameter(disc: int, cat: int, id: int, pdtn: int, table: seq<Row>) returns (iret: int, found: Option<Row>)
    requires Sorted(table)
    ensures var key := Row(disc, cat, id, pdtn, "");
      && iret in {0, -1, -2, -3}
      && (iret == 0 <==> HasExact(table, key)) && (iret == -1 <==> !HasTriple(table, key))
      && (found.Some? <==> iret != -1)
      && (found.Some? ==> found.value in table && SameTriple(found.value, key))
      && (iret == 0 ==> found.value.pdtnmbr == pdtn)
      && (iret == -2 ==> exists p: nat :: 0 < p && InsertionPoint(table, key, p) && found.value == table[p - 1])
      && (iret == -3 ==> exists p: nat :: p < |table| && InsertionPoint(table, key, p) && found.value == table[p])
  {
    var key := Row(disc, cat, id, pdtn, "");
    var searcher := new Searcher(table);
    var entry, p := searcher.Search(key);
    if searcher.lastHit.None? {
      if HasTriple(table, key) { NeighbourHasTriple(table, key, p); }
      return -1, None;
    }
    if entry.Some? { return 0, Some(table[entry.value]); }
    assert InsertionPoint(table, key, p);
    var hit := table[searcher.lastHit.value];
    iret := if hit.pdtnmbr < key.pdtnmbr then -2 else -3;
    found := Some(hit);
  }
}
