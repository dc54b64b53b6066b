/**
 * The templates of sections 3, 4 and 5: how many octets each entry takes, which entries are
 * signed, and the tails whose length depends on earlier entries.
 */
module Templates {
  import opened Options

  /** The octets of an entry: one to four, negative when the entry is signed. */
  type entry = e: int | e != 0 && -4 <= e <= 4 witness 1

  /** The entries of a template; `needext` when a tail follows. */
  datatype Template = Template(map_: seq<entry>, needext: bool)

  datatype Kind = Grid | Product | Representation

  // ----- the tables

  const FRONT: seq<entry> := [1, 1, 1, 1, 1, 2, 1, 1, 4]
  const SURFACES: seq<entry> := [1, -1, -4, 1, -1, -4]
  const INTERVAL: seq<entry> := [2, 1, 1, 1, 1, 1, 1, 4, 1, 1, 1, 4, 1, 4]
  const RECTANGLE: seq<entry> := [1, 1, 1, 1, 1, 1, 1, -4, -4, 4, 4, 1, -1, 4, -1, 4]
  const CIRCLE: seq<entry> := [1, 1, 1, 1, 1, 1, 1, -4, 4, 4, 1, -1, 4, -1, 4]
  const PROBABILITY: seq<entry> := [1, 1, 1, -1, -4, -1, -4]
  const PROCESS: seq<entry> := [4, 1, 1, 1, 4, 1, 4]

  const EARTH: seq<entry> := [1, 1, 4, 1, 4, 1, 4, 4]
  const LATLON: seq<entry> := EARTH + [4, 4, 4, -4, 4, 1, -4, 4, 4, 4, 1]
  const CONIC: seq<entry> := EARTH + [4, -4, 4, 1, -4, 4, 4, 4, 1, 1, -4, -4, -4, 4]

  function ProductTemplate(number: int): (t: Option<Template>)
  {
    var base := FRONT + SURFACES;
    if number in {0, 7, 1100} then Some(Template(base, false))
    else if number in {1, 15} then Some(Template(base + [1, 1, 1], false))
    else if number == 2 then Some(Template(base + [1, 1], false))
    else if number == 3 then Some(Template(base + RECTANGLE, true))
    else if number == 4 then Some(Template(base + CIRCLE, true))
    else if number == 5 then Some(Template(base + PROBABILITY, false))
    else if number == 6 then Some(Template(base + [1], false))
    else if number == 8 then Some(Template(base + INTERVAL, true))
    else if number == 9 then Some(Template(base + PROBABILITY + INTERVAL, true))
    else if number == 10 then Some(Template(base + [1] + INTERVAL, true))
    else if number == 11 then Some(Template(base + [1, 1, 1] + INTERVAL, true))
    else if number == 12 then Some(Template(base + [1, 1] + INTERVAL, true))
    else if number == 13 then Some(Template(base + RECTANGLE + INTERVAL, true))
    else if number == 14 then Some(Template(base + CIRCLE + INTERVAL, true))
    else if number == 20 then Some(Template([1, 1, 1, 1, 1, -4, 4, 2, 4, 2, 1, 1, 1, 1, 1, 2, 1, 3, 2], false))
    else if number in {30, 31} then Some(Template([1, 1, 1, 1, 1], true))
    else if number == 254 then Some(Template([1, 1, 4], false))
    else if number == 1000 then Some(Template(FRONT, false))
    else if number == 1001 then Some(Template(FRONT + PROCESS, false))
    else if number == 1002 then Some(Template(FRONT + [1, 1, 1, 4, 4, 2], false))
    else if number == 1101 then Some(Template(base + PROCESS, false))
    else None
  }

  function GridTemplate(number: int): (t: Option<Template>)
  {
    if number in {0, 40, 204, 32768} then Some(Template(LATLON, false))
    else if number in {1, 41} then Some(Template(LATLON + [-4, 4, 4], false))
    else if number in {2, 42} then Some(Template(LATLON + [-4, 4, -4], false))
    else if number in {3, 43} then Some(Template(LATLON + [-4, 4, 4, -4, 4, -4], false))
    else if number == 10 then Some(Template(EARTH + [4, -4, 4, 1, -4, -4, 4, 1, 4, 4, 4], false))
    else if number == 20 then Some(Template(EARTH + [4, -4, 4, 1, -4, 4, 4, 4, 1, 1], false))
    else if number in {30, 31} then Some(Template(CONIC, false))
    else if number == 50 then Some(Template([4, 4, 4, 1, 1], false))
    else if number == 51 then Some(Template([4, 4, 4, 1, 1, -4, 4, 4], false))
    else if number == 52 then Some(Template([4, 4, 4, 1, 1, -4, 4, -4], false))
    else if number == 53 then Some(Template([4, 4, 4, 1, 1, -4, 4, 4, -4, 4, -4], false))
    else if number == 90 then Some(Template(EARTH + [4, -4, 4, 1, 4, 4, 4, 4, 1, 4, 4, 4, 4], false))
    else if number == 100 then Some(Template([1, 1, 2, 1, -4, 4, 4, 1, 1, 1, 4], false))
    else if number == 110 then Some(Template(EARTH + [4, -4, 4, 1, 4, 4, 1, 1], false))
    else if number == 120 then Some(Template([4, 4, -4, 4, 4, 4, 1], true))
    else if number == 1000 then Some(Template(EARTH + [4, 4, -4, 4, 1, 4, 4, 1, 2, 1, 1, 2], true))
    else if number == 1100 then
      Some(Template(EARTH + [4, 4, -4, 4, 1, -4, 4, 1, 4, 1, -4, 1, 1, -4, 2, 1, 1, 1, 1, 1], false))
    else if number == 1200 then Some(Template([4, 1, -4, 1, 1, -4, 2, 1, 1, 1, 1, 1, 2, 1, 1, 2], true))
    else None
  }

  function RepresentationTemplate(number: int): (t: Option<Template>)
  {
    if number in {0, 41, 40010} then Some(Template([4, -2, -2, 1, 1], false))
    else if number == 2 then Some(Template([4, -2, -2, 1, 1, 1, 1, 4, 4, 4, 1, 1, 4, 1, 4, 1], false))
    else if number == 3 then Some(Template([4, -2, -2, 1, 1, 1, 1, 4, 4, 4, 1, 1, 4, 1, 4, 1, 1, 1], false))
    else if number == 50 then Some(Template([4, -2, -2, 1, 4], false))
    else if number == 51 then Some(Template([4, -2, -2, 1, -4, 2, 2, 2, 4, 1], false))
    else if number in {40, 40000} then Some(Template([4, -2, -2, 1, 1, 1, 1], false))
    else None
  }

  function Lookup(kind: Kind, number: int): (t: Option<Template>)
  {
    match kind
    case Grid => GridTemplate(number)
    case Product => ProductTemplate(number)
    case Representation => RepresentationTemplate(number)
  }

  // ----- tails

  /** The block n times over; nothing for a count that is not positive. */
  function Rep(block: seq<entry>, n: int): (r: seq<entry>)
    ensures |r| == |block| * (if n > 0 then n else 0)
    decreases n
  {
    if n <= 0 then [] else block + Rep(block, n - 1)
  }

  /** The last six entries of an interval template, once more for each further time range. */
  function Ranges(map_: seq<entry>, count: int): (r: seq<entry>)
    requires |map_| >= 6
  {
    Rep(map_[|map_| - 6..], count - 1)
  }

  /** Time ranges, then one octet per cluster member; with no time range, six entries fall off the end. */
  function Members(map_: seq<entry>, count: int, members: int): (r: seq<entry>)
    requires |map_| >= 6
  {
    if count >= 1 then Ranges(map_, count) + Rep([1], members) else Rep([1], members + 6 * (count - 1))
  }

  function ProductTail(number: int, map_: seq<entry>, list: seq<int>): (ext: seq<entry>)
    requires ProductTemplate(number) == Some(Template(map_, true)) && |list| >= |map_|
  {
    if number == 3 then Rep([1], list[26])
    else if number == 4 then Rep([1], list[25])
    else if number == 8 then Ranges(map_, list[21])
    else if number == 9 then Ranges(map_, list[28])
    else if number == 10 then Ranges(map_, list[22])
    else if number == 11 then Ranges(map_, list[24])
    else if number == 12 then Ranges(map_, list[23])
    else if number == 13 then Members(map_, list[37], list[26])
    else if number == 14 then Members(map_, list[36], list[25])
    else Rep([2, 2, 1, 1, 4], list[4])
  }

  function GridTail(number: int, map_: seq<entry>, list: seq<int>): (ext: seq<entry>)
    requires GridTemplate(number) == Some(Template(map_, true)) && |list| >= |map_|
  {
    if number == 120 then Rep([2, -2], list[1])
    else if number == 1000 then Rep([4], list[19])
    else Rep([4], list[15])
  }

  function Tail(kind: Kind, number: int, list: seq<int>): (ext: seq<entry>)
    requires Lookup(kind, number).Some? && |list| >= |Lookup(kind, number).value.map_|
  {
    var t := Lookup(kind, number).value;
    if !t.needext then []
    else match kind
      case Grid => GridTail(number, t.map_, list)
      case Product => ProductTail(number, t.map_, list)
      case Representation => []
  }

  // ----- what is used of them

  /** The tail is told by the static entries alone. */
  lemma {:induction false} TailFromStatic(kind: Kind, number: int, list: seq<int>)
    requires Lookup(kind, number).Some? && |list| >= |Lookup(kind, number).value.map_|
    ensures Tail(kind, number, list) == Tail(kind, number, list[..|Lookup(kind, number).value.map_|])
  {
    hide Rep, Ranges, Members;
  }

  /** Entry k of copy j of the block. */
  lemma {:induction false} RepAt(block: seq<entry>, n: nat, j: nat, k: nat, at: nat)
    requires j < n && k < |block| && at == j * |block| + k
    ensures at < |Rep(block, n)| && Rep(block, n)[at] == block[k]
    decreases n
  {
    if j > 0 {
      var b := |block|;
      assert (j - 1) * b + b == j * b;
      RepAt(block, n - 1, j - 1, k, at - b);
    } else {
      assert at == k;
    }
  }

  /** One copy more. */
  lemma {:induction false} RepNext(done: seq<entry>, block: seq<entry>, j: nat)
    requires j > 0
    ensures done + block + Rep(block, j - 1) == done + Rep(block, j)
  {
    hide *;
    RepIs(block, j);
    assert done + block + Rep(block, j - 1) == done + (block + Rep(block, j - 1));
  }

  lemma {:induction false} RepIs(block: seq<entry>, j: int)
    ensures Rep(block, j) == if j <= 0 then [] else block + Rep(block, j - 1)
  {
  }

  method AppendBlock(done: seq<entry>, block: seq<entry>) returns (ext: seq<entry>)
    ensures ext == done + block
  {
    ext := done;
    for k := 0 to |block|
      invariant ext == done + block[..k]
    {
      ext := ext + [block[k]];
    }
  }

  /** The loops that fill a tail, copy by copy. */
  method FillTail(block: seq<entry>, n: int) returns (ext: seq<entry>)
    ensures ext == Rep(block, n)
  {
    hide Rep;
    ext := [];
    if n <= 0 {
      RepIs(block, n);
      return;
    }
    var j := n;
    while j > 0
      invariant 0 <= j <= n && ext + Rep(block, j) == Rep(block, n)
    {
      RepNext(ext, block, j);
      ext := AppendBlock(ext, block);
      j := j - 1;
    }
    RepIs(block, 0);
  }

  /** Further time ranges, then cluster members. */
  method FillMembers(map_: seq<entry>, count: int, members: int) returns (ext: seq<entry>)
    requires |map_| >= 6
    ensures ext == Members(map_, count, members)
  {
    hide Rep;
    if count < 1 {
      ext := FillTail([1], members + 6 * (count - 1));
    } else {
      ext := FillTail(map_[|map_| - 6..], count - 1);
      var more := FillTail([1], members);
      ext := ext + more;
    }
  }

  /** `extpdstemplate` and `extgridtemplate` */
  method ExtendTemplate(kind: Kind, number: int, list: seq<int>) returns (ext: seq<entry>)
    requires Lookup(kind, number).Some? && |list| >= |Lookup(kind, number).value.map_|
    ensures ext == Tail(kind, number, list)
  {
    hide Rep, Members;
    var t := Lookup(kind, number).value;
    if !t.needext { return []; }
    var last := if |t.map_| >= 6 then t.map_[|t.map_| - 6..] else [];
    match kind
    case Grid =>
      if number == 120 {
        ext := FillTail([2, -2], list[1]);
      } else {
        ext := FillTail([4], list[if number == 1000 then 19 else 15]);
      }
    case Product =>
      if number == 3 || number == 4 {
        ext := FillTail([1], list[if number == 3 then 26 else 25]);
      } else if 8 <= number <= 12 {
        var at := if number == 8 then 21 else if number == 9 then 28 else if number == 10 then 22
                  else if number == 11 then 24 else 23;
        ext := FillTail(last, list[at] - 1);
      } else if number == 13 {
        ext := FillMembers(t.map_, list[37], list[26]);
      } else if number == 14 {
        ext := FillMembers(t.map_, list[36], list[25]);
      } else {
        ext := FillTail([2, 2, 1, 1, 4], list[4]);
      }
    case Representation => ext := [];
  }
}
