/** The map layer: `OneMap` is one list of elements (points, paths, groups, blocks) with ids. */
module Maps {
  import opened Wrappers

  /** `MapPoint::Map_Point_Type`. */
  datatype PointType = Draw | Report | Halt | Charge | Load | Unload | LoadUnload | Origin | NoUturn

  datatype MapPoint = MapPoint(id: int, pointType: PointType, realX: int, realY: int, mapChange: bool)

  datatype MapPath = MapPath(id: int, start: int, end: int, length: int, speed: real)

  /** Group types: `COMMON_GROUP`, `HALT_GROUP`, `ELEVATOR_GROUP`. */
  const COMMON_GROUP := 1
  const HALT_GROUP := 2
  const ELEVATOR_GROUP := 3

  datatype MapGroup = MapGroup(id: int, groupType: int, spirits: seq<int>)

  datatype MapBlock = MapBlock(id: int, spirits: seq<int>)

  /** An element of the map; floors and backgrounds carry nothing the model uses. */
  datatype Spirit =
    | Point(point: MapPoint)
    | Path(path: MapPath)
    | Group(group: MapGroup)
    | Block(block: MapBlock)
    | Other(otherId: int)
  {
    function Id(): int {
      match this
      case Point(p) => p.id
      case Path(p) => p.id
      case Group(g) => g.id
      case Block(b) => b.id
      case Other(id) => id
    }
  }

  // ---------------------------------------------------------------- lookups

  /** The first element with the id. */
  function SpiritById(m: seq<Spirit>, id: int): Option<Spirit> {
    if m == [] then None
    else if m[0].Id() == id then Some(m[0])
    else SpiritById(m[1..], id)
  }

  /** The first point with the id. */
  function PointById(m: seq<Spirit>, id: int): Option<MapPoint> {
    if m == [] then None
    else if m[0].Id() == id && m[0].Point? then Some(m[0].point)
    else PointById(m[1..], id)
  }

  /** The first path with the id. */
  function PathById(m: seq<Spirit>, id: int): Option<MapPath> {
    if m == [] then None
    else if m[0].Id() == id && m[0].Path? then Some(m[0].path)
    else PathById(m[1..], id)
  }

  /** All paths, in list order. */
  function Paths(m: seq<Spirit>): (r: seq<MapPath>)
    ensures forall p :: p in r <==> Path(p) in m
  {
    if m == [] then []
    else
      var rest, last := m[..|m| - 1], m[|m| - 1];
      assert m == rest + [last];
      if last.Path? then Paths(rest) + [last.path] else Paths(rest)
  }

  /** All groups of one type, in list order. */
  function Groups(m: seq<Spirit>, groupType: int): (r: seq<MapGroup>)
    ensures forall g :: g in r <==> Group(g) in m && g.groupType == groupType
  {
    if m == [] then []
    else
      var rest, last := m[..|m| - 1], m[|m| - 1];
      assert m == rest + [last];
      if last.Group? && last.group.groupType == groupType
      then Groups(rest, groupType) + [last.group]
      else Groups(rest, groupType)
  }

  /** All blocks, in list order. */
  function BlocksOf(m: seq<Spirit>): (r: seq<MapBlock>)
    ensures forall b :: b in r <==> Block(b) in m
  {
    if m == [] then []
    else
      var rest, last := m[..|m| - 1], m[|m| - 1];
      assert m == rest + [last];
      if last.Block? then BlocksOf(rest) + [last.block] else BlocksOf(rest)
  }

  /** The elements with another id, in their order. */
  function WithoutId(m: seq<Spirit>, id: int): (r: seq<Spirit>)
    ensures forall s :: s in r <==> s in m && s.Id() != id
  {
    if m == [] then []
    else if m[0].Id() == id then WithoutId(m[1..], id)
    else [m[0]] + WithoutId(m[1..], id)
  }

  /** The element at place `k` is the first path from one station to another. */
  predicate FirstBetween(m: seq<Spirit>, start: int, end: int, k: int) {
    && 0 <= k < |m| && m[k].Path? && m[k].path.start == start && m[k].path.end == end
    && forall j :: 0 <= j < k && m[j].Path? ==> m[j].path.start != start || m[j].path.end != end
  }

  // ---------------------------------------------------------------- well-formed maps

  function TotalLength(paths: seq<MapPath>): int {
    if paths == [] then 0 else paths[0].length + TotalLength(paths[1..])
  }

  ghost predicate UniqueIds(m: seq<Spirit>) {
    forall i, j :: 0 <= i < j < |m| ==> m[i].Id() != m[j].Id()
  }

  /** What the planner takes for granted of a loaded map: ids are positive and unique, lengths are
      not negative, and all lengths together are less than `DISTANCE_INFINITY`. */
  ghost predicate IsMap(m: seq<Spirit>) {
    && UniqueIds(m)
    && (forall i :: 0 <= i < |m| ==> m[i].Id() > 0)
    && (forall p :: p in Paths(m) ==> p.length >= 0)
    && TotalLength(Paths(m)) < 0x7FFF_FFFF
  }

  /** With unique ids a lookup finds exactly the element with the id. */
  lemma {:induction false} PathByIdFinds(m: seq<Spirit>, id: int)
    ensures PathById(m, id).Some? ==> PathById(m, id).value in Paths(m) && PathById(m, id).value.id == id
    ensures UniqueIds(m) ==> forall p :: p in Paths(m) && p.id == id ==> PathById(m, id) == Some(p)
  {
    if m != [] {
      var rest := m[1..];
      assert m == [m[0]] + rest;
      PathByIdFinds(rest, id);
      if PathById(m, id).Some? {
        assert Path(PathById(m, id).value) in m;
      }
      if UniqueIds(m) {
        forall p | p in Paths(m) && p.id == id ensures PathById(m, id) == Some(p) {
          assert Path(p) in m;
          if Path(p) == m[0] {
          } else {
            assert Path(p) in rest;
            var k :| 0 <= k < |rest| && rest[k] == Path(p);
            assert m[k + 1].Id() == id != m[0].Id();
          }
        }
      }
    }
  }

  lemma {:induction false} PointByIdFinds(m: seq<Spirit>, id: int)
    ensures PointById(m, id).Some? ==> Point(PointById(m, id).value) in m && PointById(m, id).value.id == id
    ensures UniqueIds(m) ==> forall p :: Point(p) in m && p.id == id ==> PointById(m, id) == Some(p)
  {
    if m != [] {
      var rest := m[1..];
      PointByIdFinds(rest, id);
      if UniqueIds(m) {
        forall p | Point(p) in m && p.id == id ensures PointById(m, id) == Some(p) {
          var k :| 0 <= k < |m| && m[k] == Point(p);
          if k > 0 {
            assert rest[k - 1] == Point(p);
            assert m[0].Id() != m[k].Id();
          }
        }
      }
    }
  }

  lemma {:induction false} SpiritByIdFinds(m: seq<Spirit>, id: int)
    ensures SpiritById(m, id).Some? ==> SpiritById(m, id).value in m && SpiritById(m, id).value.Id() == id
  {
    if m != [] {
      SpiritByIdFinds(m[1..], id);
    }
  }

  /** With unique ids an element is found under its id. */
  lemma {:induction false} SpiritByIdAt(m: seq<Spirit>, i: nat)
    requires UniqueIds(m) && i < |m|
    ensures SpiritById(m, m[i].Id()) == Some(m[i])
  {
    if i > 0 {
      assert m[0].Id() != m[i].Id();
      SpiritByIdAt(m[1..], i - 1);
    }
  }

  lemma {:induction false} PathsDistinct(m: seq<Spirit>)
    requires UniqueIds(m)
    ensures forall i, j :: 0 <= i < j < |Paths(m)| ==> Paths(m)[i].id != Paths(m)[j].id
  {
    if m != [] {
      var rest, last := m[..|m| - 1], m[|m| - 1];
      PathsDistinct(rest);
      var ps := Paths(rest);
      forall i | 0 <= i < |ps| ensures ps[i].id != last.Id() {
        assert ps[i] in ps;
        var k :| 0 <= k < |rest| && rest[k] == Path(ps[i]);
        assert m[k].Id() != last.Id();
      }
    }
  }

  /** Each path of the list is listed once, and paths come in the order of the list. */
  lemma {:induction false} PathsInOrder(m: seq<Spirit>, i: nat, j: nat) returns (a: nat, b: nat)
    requires i < j < |m| && m[i].Path? && m[j].Path?
    ensures a < b < |Paths(m)| && Paths(m)[a] == m[i].path && Paths(m)[b] == m[j].path
  {
    var rest := m[..|m| - 1];
    if j < |rest| {
      a, b := PathsInOrder(rest, i, j);
    } else {
      assert m[i] == rest[i];
      assert Path(m[i].path) in rest;
      a :| 0 <= a < |Paths(rest)| && Paths(rest)[a] == m[i].path;
      b := |Paths(rest)|;
    }
  }

  lemma NothingWithoutId(id: int)
    ensures WithoutId([], id) == []
  {}

  lemma {:induction false} WithoutIdKeeps(m: seq<Spirit>, id: int)
    ensures forall s :: s in WithoutId(m, id) <==> s in m && s.Id() != id
    ensures UniqueIds(m) ==> UniqueIds(WithoutId(m, id))
  {
    if m != [] {
      var rest := m[1..];
      WithoutIdKeeps(rest, id);
      if UniqueIds(m) {
        assert forall i :: 0 <= i < |rest| ==> rest[i].Id() != m[0].Id();
        assert UniqueIds(rest);
        if m[0].Id() != id {
          UniqueInFront(m[0], WithoutId(rest, id));
        }
      }
    }
  }

  lemma UniqueInFront(x: Spirit, m: seq<Spirit>)
    requires UniqueIds(m) && forall s :: s in m ==> s.Id() != x.Id()
    ensures UniqueIds([x] + m)
  {
    assert forall i :: 0 < i < |[x] + m| ==> ([x] + m)[i] == m[i - 1] && m[i - 1] in m;
  }

  lemma ErasedAt(m: seq<Spirit>, i: nat, id: int)
    requires i < |m| && m[i].Id() == id
    ensures var r := m[..i] + m[i + 1..];
      r[..i] + WithoutId(r[i..], id) == m[..i] + WithoutId(m[i..], id)
  {
    var r := m[..i] + m[i + 1..];
    assert r[..i] == m[..i] && r[i..] == m[i..][1..];
  }

  lemma KeptAt(m: seq<Spirit>, i: nat, id: int)
    requires i < |m| && m[i].Id() != id
    ensures m[..i + 1] + WithoutId(m[i + 1..], id) == m[..i] + WithoutId(m[i..], id)
  {
    assert m[i..][1..] == m[i + 1..];
  }

  // ---------------------------------------------------------------- the map object

  class OneMap {
    var elements: seq<Spirit>
    var maxId: int

    constructor ()
      ensures elements == [] && maxId == 0
    {
      elements, maxId := [], 0;
    }

    method Clear()
      modifies this
      ensures elements == [] && maxId == 0
    {
      elements, maxId := [], 0;
    }

    method AddSpirit(s: Spirit)
      modifies this`elements
      ensures elements == old(elements) + [s]
    {
      elements := elements + [s];
    }

    method GetNextId() returns (id: int)
      modifies this`maxId
      ensures id == maxId == old(maxId) + 1
    {
      maxId := maxId + 1;
      id := maxId;
    }

    /** Erases every element with the id, keeping the order of the others. */
    method RemoveSpiritById(id: int)
      modifies this`elements
      ensures elements == WithoutId(old(elements), id)
      ensures forall s :: s in elements <==> s in old(elements) && s.Id() != id
      ensures old(UniqueIds(elements)) ==> UniqueIds(elements)
    {
      WithoutIdKeeps(elements, id);
      hide WithoutId, UniqueIds;
      var i := 0;
      while i < |elements|
        invariant 0 <= i <= |elements|
        invariant elements[..i] + WithoutId(elements[i..], id) == WithoutId(old(elements), id)
        decreases |elements| - i
      {
        if elements[i].Id() == id {
          ErasedAt(elements, i, id);
          elements := elements[..i] + elements[i + 1..];
        } else {
          KeptAt(elements, i, id);
          i := i + 1;
        }
      }
      assert elements[i..] == [] && elements[..i] == elements;
      NothingWithoutId(id);
    }

    method GetSpiritById(id: int) returns (r: Option<Spirit>)
      ensures r == SpiritById(elements, id)
    {
      for i := 0 to |elements|
        invariant SpiritById(elements, id) == SpiritById(elements[i..], id)
      {
        if elements[i].Id() == id {
          return Some(elements[i]);
        }
      }
      return None;
    }

    method GetPointById(id: int) returns (r: Option<MapPoint>)
      ensures r == PointById(elements, id)
    {
      for i := 0 to |elements|
        invariant PointById(elements, id) == PointById(elements[i..], id)
      {
        if elements[i].Id() == id && elements[i].Point? {
          return Some(elements[i].point);
        }
      }
      return None;
    }

    method GetPathById(id: int) returns (r: Option<MapPath>)
      ensures r == PathById(elements, id)
    {
      for i := 0 to |elements|
        invariant PathById(elements, id) == PathById(elements[i..], id)
      {
        if elements[i].Id() == id && elements[i].Path? {
          return Some(elements[i].path);
        }
      }
      return None;
    }

    /** The first path from one station to another. */
    method GetPathByStartEnd(start: int, end: int) returns (r: Option<MapPath>)
      ensures r.Some? ==> exists k :: 0 <= k < |elements| && FirstBetween(elements, start, end, k) && elements[k] == Path(r.value)
      ensures r.None? ==> forall p :: Path(p) in elements ==> p.start != start || p.end != end
    {
      for i := 0 to |elements|
        invariant forall p :: Path(p) in elements[..i] ==> p.start != start || p.end != end
      {
        if elements[i].Path? && elements[i].path.start == start && elements[i].path.end == end {
          assert FirstBetween(elements, start, end, i);
          return Some(elements[i].path);
        }
      }
      return None;
    }

    method GetPaths() returns (r: seq<MapPath>)
      ensures r == Paths(elements)
    {
      r := [];
      for i := 0 to |elements|
        invariant r == Paths(elements[..i])
      {
        assert elements[..i + 1][..i] == elements[..i];
        if elements[i].Path? {
          r := r + [elements[i].path];
        }
      }
      assert elements[..|elements|] == elements;
    }

    method GetGroups(groupType: int) returns (r: seq<MapGroup>)
      ensures r == Groups(elements, groupType)
    {
      r := [];
      for i := 0 to |elements|
        invariant r == Groups(elements[..i], groupType)
      {
        assert elements[..i + 1][..i] == elements[..i];
        if elements[i].Group? && elements[i].group.groupType == groupType {
          r := r + [elements[i].group];
        }
      }
      assert elements[..|elements|] == elements;
    }

    method GetBlocks() returns (r: seq<MapBlock>)
      ensures r == BlocksOf(elements)
    {
      r := [];
      for i := 0 to |elements|
        invariant r == BlocksOf(elements[..i])
      {
        assert elements[..i + 1][..i] == elements[..i];
        if elements[i].Block? {
          r := r + [elements[i].block];
        }
      }
      assert elements[..|elements|] == elements;
    }
  }
}
