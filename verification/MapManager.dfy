/** The map manager: reservations that are updated in place, and the planner that reads them. */
module MapManagers {
  import opened Wrappers
  import opened Maps
  import opened Reservations
  import opened LineSearch
  import opened Routes
  import opened RoadRules

  function Reversed<T>(s: seq<T>): seq<T> {
    if s == [] then [] else [s[|s| - 1]] + Reversed(s[..|s| - 1])
  }

  lemma ReversedEmpty<T>()
    ensures Reversed<T>([]) == []
  {}

  lemma ReversedPush<T>(s: seq<T>, x: T)
    ensures Reversed(s + [x]) == [x] + Reversed(s)
  {
    assert (s + [x])[..|s|] == s;
  }

  lemma Regroup<T>(s: seq<T>, front: seq<T>, x: T, tail: seq<T>)
    requires s == front + [x]
    ensures front + ([x] + tail) == s + tail
  {}

  ghost predicate ContinuesRow(adj: map<int, seq<int>>, paths: seq<MapPath>, a: MapPath) {
    forall h :: 0 <= h < |paths| ==> (paths[h].id in Successors(adj, a.id) <==> Continues(a, paths[h]))
  }

  ghost predicate OpposesRow(m: seq<Spirit>, reverse: map<int, seq<int>>, paths: seq<MapPath>, a: MapPath) {
    forall h :: 0 <= h < |paths| ==> (paths[h].id in Successors(reverse, a.id) <==> Opposes(m, a, paths[h]))
  }

  /** The line leaves the goal and another vehicle holds it. */
  predicate BlockedLine(m: seq<Spirit>, occ: Occupancy, qu: Query, l: int) {
    && qu.filtered
    && PathById(m, l).Some?
    && PathById(m, l).value.start == qu.end
    && HeldByOther(Holders(occ, l), qu.agv)
  }

  /** The table of lines right before the start lines are queued. */
  ghost predicate Prepared(net: Network, occ: Occupancy, qu: Query, infos: Infos) {
    && (forall l :: l in infos <==> l in Ids(Paths(net.m)))
    && forall l :: l in infos ==>
         infos[l] == LineInfo(0, INFINITY, if BlockedLine(net.m, occ, qu, l) then Black else White)
  }

  ghost predicate IsPrepared(m: seq<Spirit>, occ: Occupancy, infos: Infos, p: MapPath, qu: Query) {
    p.id in infos &&
    infos[p.id] == LineInfo(0, INFINITY, if BlockedLine(m, occ, qu, p.id) then Black else White)
  }

  /** Lines that were blackened before the search stay black. */
  ghost predicate StaysBlocked(net: Network, occ: Occupancy, qu: Query, infos: Infos) {
    forall l :: l in infos && BlockedLine(net.m, occ, qu, l) ==> infos[l].color == Black
  }

  class MapManager {
    const onemap: OneMap
    var adj: map<int, seq<int>>
    var reverseLines: map<int, seq<int>>
    var stationOccu: map<int, int>
    var lineOccu: map<int, seq<int>>
    var groupOccu: map<int, GroupOccu>
    var mapModifying: bool

    function Net(): Network
      reads this, onemap
    {
      Network(onemap.elements, adj, reverseLines)
    }

    function Occ(): Occupancy
      reads this
    {
      Occupancy(stationOccu, lineOccu, groupOccu)
    }

    constructor (m: OneMap)
      ensures onemap == m && Occ() == Occupancy(map[], map[], map[])
      ensures adj == map[] && reverseLines == map[] && !mapModifying
    {
      onemap, adj, reverseLines := m, map[], map[];
      stationOccu, lineOccu, groupOccu, mapModifying := map[], map[], map[], false;
    }

    // -------------------------------------------------------------- line relations

    /** `getAdj`, called on a map whose relation is still empty. */
    method GetAdj()
      requires UniqueIds(onemap.elements) && adj == map[]
      modifies this`adj
      ensures forall a, b :: a in Paths(onemap.elements) && b in Paths(onemap.elements) ==>
                (b.id in Successors(adj, a.id) <==> Continues(a, b))
    {
      var paths := onemap.GetPaths();
      PathsDistinct(onemap.elements);
      for i := 0 to |paths|
        invariant forall k :: 0 <= k < i ==> ContinuesRow(adj, paths, paths[k])
        invariant forall k :: i <= k < |paths| ==> Successors(adj, paths[k].id) == []
      {
        GetAdjOf(paths, paths[i]);
      }
      forall a, b | a in Paths(onemap.elements) && b in Paths(onemap.elements)
        ensures b.id in Successors(adj, a.id) <==> Continues(a, b)
      {
        var k :| 0 <= k < |paths| && paths[k] == a;
        var h :| 0 <= h < |paths| && paths[h] == b;
        assert ContinuesRow(adj, paths, paths[k]);
      }
    }

    /** The inner loop of `getAdj`. */
    method GetAdjOf(paths: seq<MapPath>, a: MapPath)
      requires forall i, j :: 0 <= i < j < |paths| ==> paths[i].id != paths[j].id
      requires Successors(adj, a.id) == []
      modifies this`adj
      ensures ContinuesRow(adj, paths, a)
      ensures forall l :: l != a.id ==> Successors(adj, l) == Successors(old(adj), l)
    {
      for j := 0 to |paths|
        invariant forall l :: l != a.id ==> Successors(adj, l) == Successors(old(adj), l)
        invariant forall h :: 0 <= h < j ==> (paths[h].id in Successors(adj, a.id) <==> Continues(a, paths[h]))
        invariant forall h :: j <= h < |paths| ==> paths[h].id !in Successors(adj, a.id)
      {
        var b := paths[j];
        if a.id != b.id {
          if a.end == b.start && a.start != b.end {
            adj := adj[a.id := Successors(adj, a.id) + [b.id]];
          }
        }
      }
    }

    /** `getReverseLines`, called on a map whose relation is still empty. */
    method GetReverseLines()
      requires UniqueIds(onemap.elements) && reverseLines == map[]
      modifies this`reverseLines
      ensures forall a, b :: a in Paths(onemap.elements) && b in Paths(onemap.elements) ==>
                (b.id in Successors(reverseLines, a.id) <==> Opposes(onemap.elements, a, b))
      ensures forall a, b :: a in Paths(onemap.elements) && b in Paths(onemap.elements) ==>
                (b.id in Successors(reverseLines, a.id) <==> FaceToFace(onemap.elements, a, b))
    {
      var m := onemap.elements;
      var paths := onemap.GetPaths();
      PathsDistinct(m);
      for i := 0 to |paths|
        invariant forall k :: 0 <= k < i ==> OpposesRow(m, reverseLines, paths, paths[k])
        invariant forall k :: i <= k < |paths| ==> Successors(reverseLines, paths[k].id) == []
      {
        GetReverseLinesOf(paths, paths[i]);
      }
      forall a, b | a in Paths(m) && b in Paths(m)
        ensures b.id in Successors(reverseLines, a.id) <==> Opposes(m, a, b)
        ensures b.id in Successors(reverseLines, a.id) <==> FaceToFace(m, a, b)
      {
        OpposesIsFaceToFace(m, a, b);
        var k :| 0 <= k < |paths| && paths[k] == a;
        var h :| 0 <= h < |paths| && paths[h] == b;
        assert OpposesRow(m, reverseLines, paths, paths[k]);
      }
    }

    /** The inner loop of `getReverseLines`. */
    method GetReverseLinesOf(paths: seq<MapPath>, a: MapPath)
      requires forall i, j :: 0 <= i < j < |paths| ==> paths[i].id != paths[j].id
      requires Successors(reverseLines, a.id) == []
      modifies this`reverseLines
      ensures OpposesRow(onemap.elements, reverseLines, paths, a)
      ensures forall l :: l != a.id ==> Successors(reverseLines, l) == Successors(old(reverseLines), l)
    {
      var m := onemap.elements;
      for j := 0 to |paths|
        invariant forall l :: l != a.id ==> Successors(reverseLines, l) == Successors(old(reverseLines), l)
        invariant forall h :: 0 <= h < j ==>
                    (paths[h].id in Successors(reverseLines, a.id) <==> Opposes(m, a, paths[h]))
        invariant forall h :: j <= h < |paths| ==> paths[h].id !in Successors(reverseLines, a.id)
      {
        var b := paths[j];
        var opposes := DrivenAgainst(a, b);
        if opposes {
          reverseLines := reverseLines[a.id := Successors(reverseLines, a.id) + [b.id]];
        }
      }
    }

    /** The test of the inner loop: point lookups, then the two ways to be opposite. */
    method DrivenAgainst(a: MapPath, b: MapPath) returns (r: bool)
      ensures r == Opposes(onemap.elements, a, b)
    {
      if a.id == b.id {
        return false;
      }
      var aStart := onemap.GetSpiritById(a.start);
      var aEnd := onemap.GetSpiritById(a.end);
      var bStart := onemap.GetSpiritById(b.start);
      var bEnd := onemap.GetSpiritById(b.end);
      if aEnd.None? || !aEnd.value.Point? || bEnd.None? || !bEnd.value.Point?
         || bStart.None? || !bStart.value.Point? || aStart.None? || !aStart.value.Point? {
        return false;
      }
      if a.end == b.start && a.start == b.end {
        return true;
      }
      return SamePlace(aEnd.value.point, bStart.value.point) && SamePlace(bEnd.value.point, aStart.value.point);
    }

    // -------------------------------------------------------------- reservations

    /** `getGroup`. */
    method GetGroup(spirit: int) returns (ids: seq<int>)
      ensures ids == CommonGroups(onemap.elements, spirit)
    {
      var groups := onemap.GetGroups(COMMON_GROUP);
      ids := [];
      for i := 0 to |groups|
        invariant ids == GroupsWith(groups[..i], spirit)
      {
        assert groups[..i + 1][..i] == groups[..i];
        if spirit in groups[i].spirits {
          ids := ids + [groups[i].id];
        }
      }
      assert groups[..|groups|] == groups;
    }

    method RecordSpirit(spirit: int, agv: int)
      modifies this`groupOccu
      ensures groupOccu == Record(old(groupOccu), CommonGroups(onemap.elements, spirit), spirit, agv)
    {
      var ids := GetGroup(spirit);
      for i := 0 to |ids|
        invariant groupOccu == Record(old(groupOccu), ids[..i], spirit, agv)
      {
        assert ids[..i + 1][..i] == ids[..i];
        var occuSpirits := [];
        if ids[i] in groupOccu {
          occuSpirits := groupOccu[ids[i]].spirits;
        }
        occuSpirits := occuSpirits + [spirit];
        groupOccu := groupOccu[ids[i] := GroupOccu(agv, occuSpirits)];
      }
      assert ids[..|ids|] == ids;
    }

    method ForgetSpirit(spirit: int, agv: int)
      modifies this`groupOccu
      ensures groupOccu == Forget(old(groupOccu), CommonGroups(onemap.elements, spirit), spirit, agv)
    {
      var ids := GetGroup(spirit);
      for i := 0 to |ids|
        invariant groupOccu == Forget(old(groupOccu), ids[..i], spirit, agv)
      {
        assert ids[..i + 1][..i] == ids[..i];
        if ids[i] in groupOccu {
          var occuSpirits := RemoveAll(groupOccu[ids[i]].spirits, spirit);
          if occuSpirits == [] {
            groupOccu := groupOccu - {ids[i]};
          } else {
            groupOccu := groupOccu[ids[i] := GroupOccu(agv, occuSpirits)];
          }
        }
      }
      assert ids[..|ids|] == ids;
    }

    method AddOccuStation(station: int, agv: int)
      modifies this`stationOccu, this`groupOccu
      ensures Occ() == AddStation(onemap.elements, old(Occ()), station, agv)
    {
      stationOccu := stationOccu[station := agv];
      RecordSpirit(station, agv);
    }

    method AddOccuLine(line: int, agv: int)
      modifies this`lineOccu, this`groupOccu
      ensures Occ() == AddLine(onemap.elements, old(Occ()), line, agv)
    {
      var holders := if line in lineOccu then lineOccu[line] else [];
      if agv !in holders {
        holders := holders + [agv];
      }
      lineOccu := lineOccu[line := holders];
      RecordSpirit(line, agv);
    }

    method FreeOccuStation(station: int, agv: int)
      modifies this`stationOccu, this`groupOccu
      ensures Occ() == FreeStation(onemap.elements, old(Occ()), station, agv)
    {
      var owner := if station in stationOccu then stationOccu[station] else 0;
      if owner == agv {
        stationOccu := stationOccu[station := 0];
      }
      ForgetSpirit(station, agv);
    }

    method FreeOccuLine(line: int, agv: int)
      modifies this`lineOccu, this`groupOccu
      ensures Occ() == FreeLine(onemap.elements, old(Occ()), line, agv)
    {
      var holders := if line in lineOccu then lineOccu[line] else [];
      var i := 0;
      while i < |holders|
        invariant 0 <= i <= |holders|
        invariant RemoveAll(holders, agv) == RemoveAll(Holders(old(Occ()), line), agv)
        invariant forall k :: 0 <= k < i ==> holders[k] != agv
        invariant Occ() == old(Occ())
        decreases |holders| - i
      {
        if holders[i] == agv {
          RemoveAllSkips(holders, i, agv);
          holders := holders[..i] + holders[i + 1..];
        } else {
          i := i + 1;
        }
      }
      RemoveAllKeeps(holders, agv);
      assert holders == RemoveAll(Holders(old(Occ()), line), agv);
      lineOccu := lineOccu[line := holders];
      ForgetSpirit(line, agv);
    }

    /** What `distributeTask` reserves for a chosen vehicle: the goal, then every line. */
    method ReserveRoute(agv: int, goal: int, route: seq<int>)
      modifies this`stationOccu, this`lineOccu, this`groupOccu
      ensures Occ() == Reserve(onemap.elements, old(Occ()), agv, goal, route)
    {
      AddOccuStation(goal, agv);
      ghost var occ := Occ();
      for i := 0 to |route|
        invariant Occ() == AddLines(onemap.elements, occ, route[..i], agv)
      {
        assert route[..i + 1][..i] == route[..i];
        AddOccuLine(route[i], agv);
      }
      assert route[..|route|] == route;
    }

    // -------------------------------------------------------------- the planner

    /** `pathPassable` with the list of exempt points. */
    method PathPassable(line: MapPath, agv: int, exempt: seq<int>) returns (ok: bool)
      ensures ok == Passable(Net(), Occ(), agv, exempt, line)
      ensures var m, pend := onemap.elements, PointById(onemap.elements, line.end);
        ok <==>
          && pend.Some?
          && (line.start in exempt || line.end in exempt
              || pend.value.pointType !in {Charge, Load, Unload, LoadUnload, NoUturn})
          && (forall r :: r in Successors(reverseLines, line.id) && r > 0 ==> NobodyElse(Holders(Occ(), r), agv))
          && (line.end in stationOccu ==> stationOccu[line.end] in {0, agv})
          && (forall g :: Group(g) in m && g.groupType == COMMON_GROUP && (line.id in g.spirits || line.end in g.spirits) ==>
               g.id !in groupOccu || groupOccu[g.id].agv == agv)
    {
      hide PointById;
      var pend := onemap.GetPointById(line.end);
      if pend.None? {
        return false;
      }
      if line.start !in exempt && line.end !in exempt && IsWorkPoint(pend.value.pointType) {
        return false;
      }
      ok := ReversesPassable(line.id, agv);
      if !ok {
        return false;
      }
      if line.end in stationOccu && stationOccu[line.end] != 0 && stationOccu[line.end] != agv {
        return false;
      }
      ok := GroupsPassable(line, agv);
    }

    method ReversesPassable(line: int, agv: int) returns (ok: bool)
      ensures ok == ReversesFree(Successors(reverseLines, line), Occ(), agv)
    {
      var reverses := if line in reverseLines then reverseLines[line] else [];
      for i := 0 to |reverses|
        invariant forall k :: 0 <= k < i && reverses[k] > 0 ==> !HeldByOther(Holders(Occ(), reverses[k]), agv)
      {
        if reverses[i] > 0 && reverses[i] in lineOccu {
          var holders := lineOccu[reverses[i]];
          if |holders| > 1 || (|holders| == 1 && holders[0] != agv) {
            assert reverses[i] in reverses && HeldByOther(Holders(Occ(), reverses[i]), agv);
            return false;
          }
        }
      }
      return true;
    }

    method GroupsPassable(line: MapPath, agv: int) returns (ok: bool)
      ensures ok == GroupsFree(Groups(onemap.elements, COMMON_GROUP), Occ(), line, agv)
    {
      var groups := onemap.GetGroups(COMMON_GROUP);
      for i := 0 to |groups|
        invariant forall k :: 0 <= k < i && (line.id in groups[k].spirits || line.end in groups[k].spirits) ==>
                    groups[k].id !in groupOccu || groupOccu[groups[k].id].agv == agv
      {
        if line.id in groups[i].spirits || line.end in groups[i].spirits {
          if groups[i].id in groupOccu && groupOccu[groups[i].id].agv != agv {
            assert groups[i] in groups;
            return false;
          }
        }
      }
      return true;
    }

    /** The filter of one search: `pathPassable`, or nothing in the search without reservations. */
    method MayDrive(line: MapPath, qu: Query, exempt: seq<int>) returns (ok: bool)
      ensures ok == (qu.filtered ==> Passable(Net(), Occ(), qu.agv, exempt, line))
    {
      if qu.filtered {
        ok := PathPassable(line, qu.agv, exempt);
      } else {
        ok := true;
      }
    }

    /** The loop that collects the exempt points. */
    method CollectUturnPoints(paths: seq<MapPath>, start: int, end: int) returns (exempt: seq<int>)
      ensures exempt == UturnPoints(onemap.elements, paths, start, end)
    {
      exempt := [start, end];
      for i := 0 to |paths|
        invariant exempt == UturnPoints(onemap.elements, paths[..i], start, end)
      {
        assert paths[..i + 1][..i] == paths[..i];
        if paths[i].start == start {
          var pend := onemap.GetPointById(paths[i].end);
          if pend.Some? && IsUturnExempt(pend.value.pointType) {
            exempt := exempt + [pend.value.id];
          }
        } else if paths[i].end == end {
          var pstart := onemap.GetPointById(paths[i].start);
          if pstart.Some? && IsUturnExempt(pstart.value.pointType) {
            exempt := exempt + [pstart.value.id];
          }
        }
      }
      assert paths[..|paths|] == paths;
    }

    /** All lines white and at infinity. */
    method WhiteInfos(paths: seq<MapPath>) returns (infos: Infos)
      ensures forall l :: l in infos <==> l in Ids(paths)
      ensures forall k :: 0 <= k < |paths| ==> paths[k].id in infos
      ensures forall l :: l in infos ==> infos[l] == LineInfo(0, INFINITY, White)
    {
      infos := map[];
      for i := 0 to |paths|
        invariant forall k :: 0 <= k < i ==> paths[k].id in infos
        invariant forall l :: l in infos ==> l in Ids(paths)
        invariant forall l :: l in infos ==> infos[l] == LineInfo(0, INFINITY, White)
      {
        assert Ids(paths)[i] == paths[i].id;
        infos := infos[paths[i].id := LineInfo(0, INFINITY, White)];
      }
    }

    /** For a vehicle, the lines that leave the goal and are held by another vehicle are
        blackened. */
    method PrepareInfos(paths: seq<MapPath>, qu: Query) returns (infos: Infos)
      requires IsMap(onemap.elements) && paths == Paths(onemap.elements)
      ensures Prepared(Net(), Occ(), qu, infos)
    {
      hide PathById, Paths, BlockedLine, HeldByOther, Ids;
      infos := WhiteInfos(paths);
      PathsDistinct(onemap.elements);
      ghost var m, occ, all := onemap.elements, Occ(), infos.Keys;
      for i := 0 to |paths|
        invariant infos.Keys == all
        invariant forall k :: 0 <= k < |paths| ==> paths[k].id in infos
        invariant forall k :: 0 <= k < i ==> IsPrepared(m, occ, infos, paths[k], qu)
        invariant forall k :: i <= k < |paths| ==> infos[paths[k].id] == LineInfo(0, INFINITY, White)
      {
        infos := PrepareLine(infos, paths[i], qu);
      }
      forall l | l in infos
        ensures infos[l] == LineInfo(0, INFINITY, if BlockedLine(m, occ, qu, l) then Black else White)
      {
        var k := IdIndex(paths, l);
        assert IsPrepared(m, occ, infos, paths[k], qu);
      }
    }

    /** The body of the loop over the lines that leave the goal. */
    method PrepareLine(infos0: Infos, p: MapPath, qu: Query) returns (infos: Infos)
      requires UniqueIds(onemap.elements) && p in Paths(onemap.elements)
      requires p.id in infos0 && infos0[p.id] == LineInfo(0, INFINITY, White)
      ensures infos.Keys == infos0.Keys && forall l :: l in infos && l != p.id ==> infos[l] == infos0[l]
      ensures IsPrepared(onemap.elements, Occ(), infos, p, qu)
    {
      infos := infos0;
      PathByIdFinds(onemap.elements, p.id);
      if qu.filtered && p.start == qu.end && p.id in lineOccu {
        var holders := lineOccu[p.id];
        if |holders| > 1 || (|holders| == 1 && holders[0] != qu.agv) {
          infos := infos[p.id := LineInfo(infos[p.id].father, INFINITY, Black)];
        }
      }
    }

    /** Queues every drivable line that leaves the start station. */
    method SeedQueue(paths: seq<MapPath>, qu: Query, exempt: seq<int>, infos0: Infos, ghost g: Graph)
      returns (infos: Infos, q: Queue, ghost walks: map<int, seq<int>>)
      requires IsMap(onemap.elements) && paths == Paths(onemap.elements)
      requires exempt == UturnPoints(onemap.elements, paths, qu.start, qu.end)
      requires Prepared(Net(), Occ(), qu, infos0) && g == GraphOf(Net(), Occ(), qu)
      ensures Inv(g, infos, q, walks, {}, {})
      ensures StaysBlocked(Net(), Occ(), qu, infos)
    {
      hide Seeding, GraphOf, StaysBlocked, Prepared, PathById, Inv, UturnPoints, Paths;
      PathsDistinct(onemap.elements);
      infos, q, walks := infos0, [], map[];
      PreparedIsSeeding(Net(), Occ(), qu, g, infos);
      for i := 0 to |paths|
        invariant Seeding(g, infos, q, walks)
        invariant infos.Keys == infos0.Keys
        invariant forall k :: i <= k < |paths| ==> paths[k].id in infos && infos[paths[k].id].color != Gray
        invariant forall k :: 0 <= k < i && paths[k].id in g.sources ==>
                    paths[k].id in infos && infos[paths[k].id].color == Gray
        invariant StaysBlocked(Net(), Occ(), qu, infos)
      {
        infos, q, walks := SeedLine(paths[i], qu, exempt, infos, q, walks, g);
      }
      SourcesGray(Net(), Occ(), qu, g, infos);
      Seeded(g, infos, q, walks);
    }

    /** The body of the loop over the lines. */
    method SeedLine(p: MapPath, qu: Query, exempt: seq<int>, infos0: Infos, q0: Queue, ghost walks0: map<int, seq<int>>,
                    ghost g: Graph)
      returns (infos: Infos, q: Queue, ghost walks: map<int, seq<int>>)
      requires IsMap(onemap.elements) && p in Paths(onemap.elements)
      requires exempt == UturnPoints(onemap.elements, Paths(onemap.elements), qu.start, qu.end)
      requires g == GraphOf(Net(), Occ(), qu) && Seeding(g, infos0, q0, walks0)
      requires StaysBlocked(Net(), Occ(), qu, infos0)
      requires p.id in infos0 && infos0[p.id].color != Gray
      ensures Seeding(g, infos, q, walks)
      ensures infos.Keys == infos0.Keys && forall l :: l in infos && l != p.id ==> infos[l] == infos0[l]
      ensures p.id in g.sources ==> infos[p.id].color == Gray
      ensures StaysBlocked(Net(), Occ(), qu, infos)
    {
      hide Seeding, GraphOf, IsMap, PathById, Passable, UturnPoints, Paths;
      infos, q, walks := infos0, q0, walks0;
      SourcesWhite(g, infos, q, walks);
      LineInGraph(Net(), Occ(), qu, p);
      if p.start == qu.start {
        var ok := MayDrive(p, qu, exempt);
        if ok && infos[p.id].color != Black {
          infos := infos[p.id := infos[p.id].(distance := p.length, color := Gray)];
          q := Insert(q, p.length, p.id);
          walks := walks[p.id := [p.id]];
          Seed(g, infos0, q0, walks0, p.id, infos, q, walks);
        }
      }
    }

    /** One neighbour of the line of the round: skipped, or queued with a smaller distance. */
    method RelaxLine(s: int, b: int, qu: Query, exempt: seq<int>, infos0: Infos, q0: Queue,
                     ghost walks0: map<int, seq<int>>, ghost done: set<int>, ghost g: Graph)
      returns (infos: Infos, q: Queue, ghost walks: map<int, seq<int>>)
      requires IsMap(onemap.elements) && g == GraphOf(Net(), Occ(), qu)
      requires exempt == UturnPoints(onemap.elements, Paths(onemap.elements), qu.start, qu.end)
      requires Inv(g, infos0, q0, walks0, done, done + {s}) && InRound(infos0, s)
      requires b in Successors(adj, s)
      requires StaysBlocked(Net(), Occ(), qu, infos0)
      ensures Inv(g, infos, q, walks, done, done + {s}) && InRound(infos, s)
      ensures OnlyCloser(infos0, infos, done, s)
      ensures g.allowed <= g.len.Keys && Relaxed(g, infos, done, s, b)
      ensures StaysBlocked(Net(), Occ(), qu, infos)
    {
      hide Inv, GraphOf, UturnPoints, Paths, Passable, PathById, Relaxed, InRound, OnlyCloser, HeldByOther;
      infos, q, walks := infos0, q0, walks0;
      InvKeys(g, infos, q, walks, done, done + {s});
      CloserReflexive(infos, done, s);
      GraphSets(Net(), Occ(), qu);
      IdInGraph(Net(), Occ(), qu, b);
      if b in infos && infos[b].color == Black {
        RelaxedAlready(g, infos, q, walks, done, s, b);
        return;
      }
      var path := onemap.GetPathById(b);
      if path.None? {
        RelaxedAlready(g, infos, q, walks, done, s, b);
        return;
      }
      PathByIdFinds(onemap.elements, b);
      LineInGraph(Net(), Occ(), qu, path.value);
      var ok := MayDrive(path.value, qu, exempt);
      if !ok {
        RelaxedAlready(g, infos, q, walks, done, s, b);
        return;
      }
      infos, q, walks := QueueNeighbour(s, b, path.value.length, infos, q, walks, done, g);
    }

    /** The search loop: each round takes the front of the queue, relaxes its successors and
        blackens it.  It ends because `done` grows inside the drivable lines. */
    method Search(qu: Query, exempt: seq<int>, infos0: Infos, q0: Queue, ghost walks0: map<int, seq<int>>, ghost g: Graph)
      returns (infos: Infos, ghost walks: map<int, seq<int>>, ghost done: set<int>)
      requires IsMap(onemap.elements) && g == GraphOf(Net(), Occ(), qu)
      requires exempt == UturnPoints(onemap.elements, Paths(onemap.elements), qu.start, qu.end)
      requires Inv(g, infos0, q0, walks0, {}, {})
      requires StaysBlocked(Net(), Occ(), qu, infos0)
      ensures AreShortest(g, infos)
      ensures Inv(g, infos, [], walks, done, done)
    {
      hide Inv, GraphOf, IsMap, UturnPoints, Paths, Passable, PathById, InRound, StaysBlocked, OnlyCloser, Relaxed;
      hide AreShortest;
      infos, walks, done := infos0, walks0, {};
      var q := q0;
      InvDone(g, infos, q, walks, done);
      GraphSets(Net(), Occ(), qu);
      while |q| > 0
        invariant Inv(g, infos, q, walks, done, done)
        invariant StaysBlocked(Net(), Occ(), qu, infos)
        invariant done <= g.allowed
        decreases g.allowed - done
      {
        var s := q[0].line;
        StartRound(g, infos, q, walks, done);
        infos, q, walks := RelaxAll(s, qu, exempt, infos, q, walks, done, g);
        InRoundMeans(g, infos, q, walks, done, s);
        FinishRound(g, infos, q, walks, done, s);
        StaysBlockedFinish(Net(), Occ(), qu, infos, s);
        infos := infos[s := infos[s].(color := Black)];
        q := EraseLine(q, s);
        done := done + {s};
        InvDone(g, infos, q, walks, done);
      }
      SearchIsShortest(g, infos, walks, done);
    }

    /** The inner loop of a round. */
    method RelaxAll(s: int, qu: Query, exempt: seq<int>, infos0: Infos, q0: Queue,
                    ghost walks0: map<int, seq<int>>, ghost done: set<int>, ghost g: Graph)
      returns (infos: Infos, q: Queue, ghost walks: map<int, seq<int>>)
      requires IsMap(onemap.elements) && g == GraphOf(Net(), Occ(), qu)
      requires exempt == UturnPoints(onemap.elements, Paths(onemap.elements), qu.start, qu.end)
      requires Inv(g, infos0, q0, walks0, done, done + {s}) && InRound(infos0, s)
      requires StaysBlocked(Net(), Occ(), qu, infos0)
      ensures Inv(g, infos, q, walks, done, done + {s}) && InRound(infos, s)
      ensures g.allowed <= g.len.Keys
      ensures forall b :: b in Successors(g.adj, s) ==> Relaxed(g, infos, done, s, b)
      ensures StaysBlocked(Net(), Occ(), qu, infos)
    {
      hide Inv, GraphOf, IsMap, UturnPoints, Paths, Passable, PathById, StaysBlocked, OnlyCloser, Relaxed, InRound;
      GraphSets(Net(), Occ(), qu);
      infos, q, walks := infos0, q0, walks0;
      InRoundMeans(g, infos, q, walks, done, s);
      var adjs := if s in adj then adj[s] else [];
      for k := 0 to |adjs|
        invariant Inv(g, infos, q, walks, done, done + {s}) && InRound(infos, s) && s in infos
        invariant forall j :: 0 <= j < k ==> Relaxed(g, infos, done, s, adjs[j])
        invariant StaysBlocked(Net(), Occ(), qu, infos)
      {
        ghost var before := infos;
        infos, q, walks := RelaxLine(s, adjs[k], qu, exempt, infos, q, walks, done, g);
        InRoundMeans(g, infos, q, walks, done, s);
        RelaxedStays(g, before, infos, done, s, adjs, k);
      }
    }

    /** The nearest line into the goal; 0 when none was reached. */
    method ChooseEnd(paths: seq<MapPath>, qu: Query, infos: Infos) returns (index: int, minDis: int)
      requires forall k :: 0 <= k < |paths| ==> paths[k].id in infos
      requires paths == Paths(onemap.elements)
      ensures ChosenEnd(Net(), qu, infos, index, minDis)
    {
      index, minDis := 0, INFINITY;
      for k := 0 to |paths|
        invariant minDis <= INFINITY
        invariant minDis == INFINITY ==> index == 0
        invariant minDis < INFINITY ==>
                    exists p :: p in paths && IsEndAt(qu, infos, p, index, minDis)
        invariant forall j :: 0 <= j < k && paths[j].end == qu.end ==>
                    minDis <= infos[paths[j].id].distance
      {
        if paths[k].end == qu.end {
          if infos[paths[k].id].distance < minDis {
            minDis := infos[paths[k].id].distance;
            index := paths[k].id;
            assert paths[k] in paths && IsEndAt(qu, infos, paths[k], index, minDis);
          }
        }
      }
    }

    /** The `while (true)` walk from the last line back over the fathers, and the final reversal. */
    method WalkFathers(infos: Infos, index: int, ghost g: Graph, ghost walks: map<int, seq<int>>, ghost done: set<int>)
      returns (result: seq<int>)
      requires Inv(g, infos, [], walks, done, done)
      requires index != 0 ==> Reached(infos, done, index)
      ensures index == 0 ==> result == []
      ensures index != 0 ==> index in walks && result == walks[index]
    {
      hide Inv, Reached, Reversed;
      var i, back := index, [];
      ghost var front, tail := [], [];
      ReversedEmpty<int>();
      if i != 0 {
        FatherStep(g, infos, walks, done, i);
        front := walks[i];
      }
      ghost var target := front;
      while i != 0
        invariant i != 0 ==> Reached(infos, done, i) && i in walks && front == walks[i] && |front| > 0
        invariant i == 0 ==> front == []
        invariant front + tail == target && tail == Reversed(back)
        decreases |front|
      {
        FatherStep(g, infos, walks, done, i);
        ReversedPush(back, i);
        ghost var before := front;
        front := front[..|front| - 1];
        Regroup(before, front, i, tail);
        tail := [i] + tail;
        back := back + [i];
        i := infos[i].father;
        if i != 0 {
          FatherStep(g, infos, walks, done, i);
          assert front == walks[i];
        }
      }
      assert tail == target;
      result := Reversed(back);
    }

    /** The whole search of one query, from the white table to the reversed father walk. */
    method FindRoute(qu: Query) returns (route: seq<int>, distance: int)
      requires IsMap(onemap.elements)
      ensures IsShortest(Net(), Occ(), qu, route, distance)
    {
      hide Inv, GraphOf, IsMap, Prepared, StaysBlocked, UturnPoints, IsShortest, ChosenEnd, Paths, Reached;
      var paths := onemap.GetPaths();
      var exempt := CollectUturnPoints(paths, qu.start, qu.end);
      ghost var g := GraphOf(Net(), Occ(), qu);
      var infos := PrepareInfos(paths, qu);
      var q;
      ghost var walks;
      infos, q, walks := SeedQueue(paths, qu, exempt, infos, g);
      ghost var done;
      infos, walks, done := Search(qu, exempt, infos, q, walks, g);
      TableCoversPaths(Net(), Occ(), qu, g, infos, walks, done);
      var index;
      index, distance := ChooseEnd(paths, qu, infos);
      EndIsReached(Net(), Occ(), qu, g, infos, walks, done, index, distance);
      route := WalkFathers(infos, index, g, walks, done);
      Conclude(Net(), Occ(), qu, g, infos, walks, done, index, route, distance);
    }

    /** `getPath` for a vehicle. */
    method GetPath(agv: int, lastStation: int, startStation: int, endStation: int, changeDirect: bool)
      returns (result: seq<int>, distance: int)
      requires IsMap(onemap.elements)
      ensures PathAnswer(Net(), Occ(), agv, lastStation, startStation, endStation, changeDirect, result, distance)
    {
      hide IsShortest, IsMap, Joining, MayPlan, FirstTurnsBack;
      result, distance := [], INFINITY;
      var ok := EntryGuards(agv, lastStation, startStation, endStation);
      if !ok {
        return;
      }
      var last := if lastStation <= 0 then startStation else lastStation;
      var start := if startStation <= 0 then last else startStation;
      if start == endStation {
        distance := 0;
        if changeDirect && last != start {
          result, distance := JoiningLines(last, start);
        }
        return;
      }
      result, distance := FindRoute(Query(true, agv, start, endStation));
      if |result| > 0 && last != start && !changeDirect {
        ghost var route := result;
        result := DropTurnBack(result, last, start);
        NeverTurnsBack(Net(), Occ(), Query(true, agv, start, endStation), route, distance, last);
      }
    }

    method EntryGuards(agv: int, lastStation: int, startStation: int, endStation: int) returns (ok: bool)
      ensures ok == MayPlan(Net(), Occ(), agv, lastStation, startStation, endStation)
    {
      if (lastStation <= 0 && startStation <= 0) || endStation <= 0 {
        return false;
      }
      var last := if lastStation <= 0 then startStation else lastStation;
      var start := if startStation <= 0 then last else startStation;
      var lastSpirit := onemap.GetSpiritById(last);
      var startSpirit := onemap.GetSpiritById(start);
      var endSpirit := onemap.GetSpiritById(endStation);
      if lastSpirit.None? || startSpirit.None? || endSpirit.None?
         || !lastSpirit.value.Point? || !startSpirit.value.Point? || !endSpirit.value.Point? {
        return false;
      }
      if start in stationOccu && stationOccu[start] != 0 && stationOccu[start] != agv {
        return false;
      }
      if endStation in stationOccu && stationOccu[endStation] != 0 && stationOccu[endStation] != agv {
        return false;
      }
      return true;
    }

    /** The last correction of `getPath`: a first line from the last station to the start station
        is dropped. */
    method DropTurnBack(route: seq<int>, last: int, start: int) returns (result: seq<int>)
      requires |route| > 0
      ensures result == if FirstTurnsBack(onemap.elements, route, last, start) then route[1..] else route
    {
      result := route;
      var first := onemap.GetSpiritById(route[0]);
      if first.Some? && first.value.Path? && first.value.path.start == last && first.value.path.end == start {
        result := result[1..];
      }
    }

    method JoiningLines(last: int, start: int) returns (result: seq<int>, distance: int)
      ensures var joining := Joining(Paths(onemap.elements), last, start);
        && result == Ids(joining)
        && distance == if joining == [] then 0 else joining[|joining| - 1].length
    {
      hide Ids, Paths;
      var paths := onemap.GetPaths();
      result, distance := [], 0;
      ghost var joining := [];
      IdsEmpty();
      for i := 0 to |paths|
        invariant joining == Joining(paths[..i], last, start) && result == Ids(joining)
        invariant distance == if joining == [] then 0 else joining[|joining| - 1].length
      {
        assert paths[..i + 1][..i] == paths[..i];
        if paths[i].start == last && paths[i].end == start {
          IdsAppend(joining, paths[i]);
          joining := joining + [paths[i]];
          result := result + [paths[i].id];
          distance := paths[i].length;
        }
      }
      assert paths[..|paths|] == paths;
    }

    /** `getPath` without a vehicle; the caller passes infinity as the initial distance. */
    method GetFreePath(from: int, to: int) returns (result: seq<int>, distance: int)
      requires IsMap(onemap.elements)
      ensures FreeAnswer(Net(), Occ(), from, to, result, distance)
    {
      hide IsShortest, IsMap;
      result, distance := [], INFINITY;
      if from <= 0 || to <= 0 {
        return;
      }
      if from == to {
        distance := 0;
        return;
      }
      var startSpirit := onemap.GetSpiritById(from);
      var endSpirit := onemap.GetSpiritById(to);
      if startSpirit.None? || endSpirit.None? || !startSpirit.value.Point? || !endSpirit.value.Point? {
        return;
      }
      result, distance := FindRoute(Query(false, 0, from, to));
    }

    /** `getBestPath`: plans from the station ahead and, when the vehicle may turn around, also from
        the station behind; the shorter answer wins, the second one on a tie. */
    method GetBestPath(agv: int, lastStation: int, startStation: int, endStation: int, changeDirect: bool)
      returns (result: seq<int>, distance: int)
      requires IsMap(onemap.elements)
      ensures mapModifying ==> result == [] && distance == INFINITY
      ensures !mapModifying && !changeDirect ==>
                PathAnswer(Net(), Occ(), agv, lastStation, startStation, endStation, false, result, distance)
      ensures !mapModifying && changeDirect ==>
                BetterAnswer(Net(), Occ(), agv, lastStation, startStation, endStation, result, distance)
    {
      result, distance := [], INFINITY;
      if mapModifying {
        return;
      }
      var a, disA := GetPath(agv, lastStation, startStation, endStation, false);
      var b, disB := [], INFINITY;
      AnswerFinite(Net(), Occ(), agv, lastStation, startStation, endStation, false, a, disA);
      hide PathAnswer, IsMap;
      if changeDirect {
        b, disB := GetPath(agv, startStation, lastStation, endStation, true);
        AnswerFinite(Net(), Occ(), agv, startStation, lastStation, endStation, true, b, disB);
        if disA != INFINITY && disB != INFINITY {
          if disA < disB {
            return a, disA;
          }
          return b, disB;
        }
      }
      if disA != INFINITY {
        return a, disA;
      }
      return b, disB;
    }

    /** `getNearestHaltStation`: the first of the free halt points that are nearest to the goal, over
        routes that ignore reservations.  The test of the halt groups has no effect, since its
        `continue` belongs to the loop over the groups. */
    method GetNearestHaltStation(agv: int, aimStation: int) returns (halt: int)
      requires IsMap(onemap.elements)
      ensures halt == -1 ==> NoNearerHalt(Net(), Occ(), agv, aimStation, INFINITY)
      ensures halt != -1 ==> NearestHalt(Net(), Occ(), agv, aimStation, halt)
    {
      hide FreeAnswer, IsMap;
      halt := -1;
      var minDistance := INFINITY;
      ghost var at, route := 0, [];
      var m := onemap.elements;
      for i := 0 to |m|
        invariant minDistance <= INFINITY && (halt == -1 <==> minDistance == INFINITY)
        invariant halt != -1 ==> 0 <= at < i && m[at].Id() == halt && m[at].Point?
        invariant halt != -1 ==> HaltAt(Net(), Occ(), agv, aimStation, m[at].point, route, minDistance)
        invariant halt != -1 ==> forall k :: 0 <= k < at ==> Farther(Net(), Occ(), agv, aimStation, m[k], minDistance)
        invariant forall k :: 0 <= k < i ==> NotNearer(Net(), Occ(), agv, aimStation, m[k], minDistance)
      {
        ghost var before := minDistance;
        if m[i].Point? && m[i].point.pointType.Halt? {
          var e := m[i].point;
          if !(e.id in stationOccu && stationOccu[e.id] != 0 && stationOccu[e.id] != agv) {
            var r, distance := GetFreePath(e.id, aimStation);
            FreeAnswerUnique(Net(), Occ(), e.id, aimStation, r, distance);
            if distance < minDistance {
              minDistance := distance;
              halt := e.id;
              at, route := i, r;
              IdsPositive(m, i);
              NearerThanBefore(Net(), Occ(), agv, aimStation, i, before, minDistance);
            }
          }
        }
        assert forall k :: 0 <= k < i ==> NotNearer(Net(), Occ(), agv, aimStation, m[k], before);
      }
      forall p, r, d | HaltAt(Net(), Occ(), agv, aimStation, p, r, d) ensures minDistance <= d {
        var k :| 0 <= k < |m| && m[k] == Point(p);
        assert NotNearer(Net(), Occ(), agv, aimStation, m[k], minDistance);
      }
      if halt != -1 {
        assert FirstHalt(Net(), Occ(), agv, aimStation, at, route, minDistance);
      }
    }
  }

  /** A distance below the best one so far is below all of them. */
  lemma NearerThanBefore(net: Network, occ: Occupancy, agv: int, aim: int, n: nat, before: int, d: int)
    requires n <= |net.m| && d < before
    requires forall k :: 0 <= k < n ==> NotNearer(net, occ, agv, aim, net.m[k], before)
    ensures forall k :: 0 <= k < n ==> Farther(net, occ, agv, aim, net.m[k], d)
  {
    hide HaltAt;
  }

  /** A neighbour that may be driven is queued when it is white or gets closer. */
  method QueueNeighbour(s: int, b: int, length: int, infos0: Infos, q0: Queue,
                        ghost walks0: map<int, seq<int>>, ghost done: set<int>, ghost g: Graph)
    returns (infos: Infos, q: Queue, ghost walks: map<int, seq<int>>)
    requires Inv(g, infos0, q0, walks0, done, done + {s}) && InRound(infos0, s)
    requires Follows(g, s, b) && b in g.len && g.len[b] == length
    requires b in infos0 && infos0[b].color != Black
    ensures Inv(g, infos, q, walks, done, done + {s}) && InRound(infos, s)
    ensures OnlyCloser(infos0, infos, done, s)
    ensures g.allowed <= g.len.Keys && Relaxed(g, infos, done, s, b)
    ensures forall l :: l in infos0 && infos0[l].color == Black ==> l in infos && infos[l] == infos0[l]
    ensures infos.Keys == infos0.Keys
  {
    hide Inv, Relaxed, Follows, OnlyCloser, Requeued, Insert, Without, Sorted, OncePerLine, Reached;
    infos, q, walks := infos0, q0, walks0;
    InvKeys(g, infos, q, walks, done, done + {s});
    CloserReflexive(infos, done, s);
    var distance := infos[s].distance + length;
    if infos[b].color == White || infos[b].distance > distance {
      NoOverflowInRound(g, infos, q, walks, done, s, b);
      q := EraseLine(q, b);
      q := Insert(q, distance, b);
      Requeue(q0, distance, b);
      infos := infos[b := LineInfo(s, distance, Gray)];
      walks := walks[b := walks[s] + [b]];
      assert infos == Updated(infos0, s, b, g.len[b]);
      hide Updated, InRound;
      Update(g, infos0, q0, walks0, done, s, b, infos, q, walks);
    } else {
      RelaxedAlready(g, infos, q, walks, done, s, b);
    }
  }

  lemma IdIndex(paths: seq<MapPath>, l: int) returns (k: nat)
    requires l in Ids(paths)
    ensures k < |paths| && paths[k].id == l
  {
    k :| 0 <= k < |paths| && Ids(paths)[k] == l;
  }

  /** One step of the father walk: the father is nearer to the start by one line. */
  lemma FatherStep(g: Graph, infos: Infos, walks: map<int, seq<int>>, done: set<int>, i: int)
    requires Inv(g, infos, [], walks, done, done) && Reached(infos, done, i)
    ensures i in infos && i in walks && |walks[i]| > 0
    ensures infos[i].father == 0 ==> walks[i] == [i]
    ensures infos[i].father != 0 ==>
              && Reached(infos, done, infos[i].father)
              && infos[i].father in walks
              && walks[i] == walks[infos[i].father] + [i]
  {
    hide QueueIsGray, Closed, Bounded, DoneFirst;
    assert FatherWalk(g, infos, walks, done, i);
  }

  lemma TableCoversPaths(net: Network, occ: Occupancy, qu: Query, g: Graph, infos: Infos,
                         walks: map<int, seq<int>>, done: set<int>)
    requires IsMap(net.m) && g == GraphOf(net, occ, qu)
    requires Inv(g, infos, [], walks, done, done)
    ensures forall k :: 0 <= k < |Paths(net.m)| ==> Paths(net.m)[k].id in infos
  {
    hide GraphOf, Inv;
    InvKeys(g, infos, [], walks, done, done);
    forall k | 0 <= k < |Paths(net.m)| ensures Paths(net.m)[k].id in infos {
      LineInGraph(net, occ, qu, Paths(net.m)[k]);
    }
  }

  /** A finite distance is the distance of a finished line. */
  lemma FiniteIsDone(g: Graph, infos: Infos, walks: map<int, seq<int>>, done: set<int>, l: int)
    requires Inv(g, infos, [], walks, done, done) && l in infos
    ensures infos[l].distance < INFINITY ==> l in done && Reached(infos, done, l)
    ensures l in done ==> 0 <= infos[l].distance < INFINITY
  {
    hide Fathers, Closed, DoneFirst, FatherWalk;
    EmptyQueue(g, infos, walks, done);
    if l in done {
      assert Reached(infos, done, l);
      assert done + {l} == done;
      SumInGrows(g.ids, g.len, done + {l}, g.len.Keys);
    }
  }

  ghost predicate IsEndAt(qu: Query, infos: Infos, p: MapPath, index: int, distance: int) {
    p.end == qu.end && p.id == index && p.id in infos && infos[p.id].distance == distance
  }

  ghost predicate ChosenEnd(net: Network, qu: Query, infos: Infos, index: int, distance: int) {
    && distance <= INFINITY
    && (distance == INFINITY ==> index == 0)
    && (distance < INFINITY ==> exists p :: p in Paths(net.m) && IsEndAt(qu, infos, p, index, distance))
    && forall p :: p in Paths(net.m) && p.end == qu.end ==> p.id in infos && distance <= infos[p.id].distance
  }

  lemma EndIsReached(net: Network, occ: Occupancy, qu: Query, g: Graph, infos: Infos,
                     walks: map<int, seq<int>>, done: set<int>, index: int, distance: int)
    requires Inv(g, infos, [], walks, done, done) && ChosenEnd(net, qu, infos, index, distance)
    ensures index != 0 ==> Reached(infos, done, index)
  {
    hide Inv;
    if distance < INFINITY {
      FiniteIsDone(g, infos, walks, done, index);
    }
  }

  /** The route the father walk spells is a shortest route of the query. */
  lemma Conclude(net: Network, occ: Occupancy, qu: Query, g: Graph, infos: Infos, walks: map<int, seq<int>>,
                 done: set<int>, index: int, route: seq<int>, distance: int)
    requires IsMap(net.m) && g == GraphOf(net, occ, qu)
    requires Inv(g, infos, [], walks, done, done) && ChosenEnd(net, qu, infos, index, distance)
    requires index == 0 ==> route == []
    requires index != 0 ==> index in walks && route == walks[index]
    ensures IsShortest(net, occ, qu, route, distance)
  {
    hide Inv, GraphOf, DrivableId, IsRoute, RouteLength, WalkLength, IsWalk;
    if distance < INFINITY {
      ChosenIsRoute(net, occ, qu, g, infos, walks, done, index, distance);
    }
    forall w | IsRoute(net, occ, qu, w) ensures route != [] && distance <= RouteLength(net.m, w) {
      ChosenIsNearest(net, occ, qu, g, infos, walks, done, index, distance, w);
    }
  }

  lemma ChosenIsRoute(net: Network, occ: Occupancy, qu: Query, g: Graph, infos: Infos, walks: map<int, seq<int>>,
                      done: set<int>, index: int, distance: int)
    requires IsMap(net.m) && g == GraphOf(net, occ, qu)
    requires Inv(g, infos, [], walks, done, done) && ChosenEnd(net, qu, infos, index, distance)
    requires distance < INFINITY
    ensures index != 0 && index in walks && walks[index] != []
    ensures IsRoute(net, occ, qu, walks[index]) && distance == RouteLength(net.m, walks[index])
  {
    hide Inv, GraphOf, DrivableId, IsRoute, RouteLength, WalkLength;
    var p :| p in Paths(net.m) && IsEndAt(qu, infos, p, index, distance);
    FiniteIsDone(g, infos, walks, done, index);
    PathByIdFinds(net.m, index);
    assert Path(p) in net.m;
    DoneWalk(g, infos, walks, done, index);
    RoutesAreWalks(net, occ, qu, walks[index]);
    WalkLengthIsRouteLength(net, occ, qu, walks[index]);
  }

  lemma DoneWalk(g: Graph, infos: Infos, walks: map<int, seq<int>>, done: set<int>, l: int)
    requires Inv(g, infos, [], walks, done, done) && Reached(infos, done, l)
    ensures l in walks && IsWalk(g, walks[l]) && walks[l][|walks[l]| - 1] == l
    ensures forall i :: 0 <= i < |walks[l]| ==> walks[l][i] in g.len
    ensures WalkLength(g.len, walks[l]) == infos[l].distance
  {
    hide QueueIsGray, Closed, Bounded, DoneFirst;
    assert FatherWalk(g, infos, walks, done, l);
  }

  lemma EmptyQueue(g: Graph, infos: Infos, walks: map<int, seq<int>>, done: set<int>)
    requires Inv(g, infos, [], walks, done, done)
    ensures NoGray(infos)
  {
    hide Fathers, Closed, DoneFirst, Colors, Bounded, WellFormed;
  }

  lemma ChosenIsNearest(net: Network, occ: Occupancy, qu: Query, g: Graph, infos: Infos, walks: map<int, seq<int>>,
                        done: set<int>, index: int, distance: int, w: seq<int>)
    requires IsMap(net.m) && g == GraphOf(net, occ, qu)
    requires Inv(g, infos, [], walks, done, done) && ChosenEnd(net, qu, infos, index, distance)
    requires IsRoute(net, occ, qu, w)
    ensures distance < INFINITY && distance <= RouteLength(net.m, w)
  {
    hide GraphOf, DrivableId, IsRoute, RouteLength, WalkLength, Fathers, QueueIsGray, Bounded;
    RoutesAreWalks(net, occ, qu, w);
    EmptyQueue(g, infos, walks, done);
    NoWalkIsShorter(g, infos, done, w);
    WalkLengthIsRouteLength(net, occ, qu, w);
    var last := w[|w| - 1];
    PathByIdFinds(net.m, last);
    FiniteIsDone(g, infos, walks, done, last);
  }

  /** The shorter of the answers ahead and behind; the one behind on a tie. */
  ghost predicate BetterAnswer(net: Network, occ: Occupancy, agv: int, last: int, start: int, end: int,
                               route: seq<int>, distance: int) {
    exists a, disA, b, disB ::
      && PathAnswer(net, occ, agv, last, start, end, false, a, disA)
      && PathAnswer(net, occ, agv, start, last, end, true, b, disB)
      && route == (if disA < disB then a else b)
      && distance == if disA < disB then disA else disB
  }

  /** A planning question has one distance. */
  lemma AnswerUnique(net: Network, occ: Occupancy, agv: int, last: int, start: int, end: int, turn: bool,
                     r: seq<int>, d: int, r': seq<int>, d': int)
    requires PathAnswer(net, occ, agv, last, start, end, turn, r, d)
    requires PathAnswer(net, occ, agv, last, start, end, turn, r', d')
    ensures d == d'
  {
    hide IsRoute, RouteLength, MayPlan, Joining;
  }

  /** With permission to turn around: the answer is one of the two, ahead or behind, and neither is shorter. */
  lemma BetterIsShorter(net: Network, occ: Occupancy, agv: int, last: int, start: int, end: int, route: seq<int>, distance: int,
                        a: seq<int>, disA: int, b: seq<int>, disB: int)
    requires BetterAnswer(net, occ, agv, last, start, end, route, distance)
    requires PathAnswer(net, occ, agv, last, start, end, false, a, disA)
    requires PathAnswer(net, occ, agv, start, last, end, true, b, disB)
    ensures distance <= disA && distance <= disB
    ensures PathAnswer(net, occ, agv, last, start, end, false, route, distance)
            || PathAnswer(net, occ, agv, start, last, end, true, route, distance)
  {
    hide PathAnswer;
    var a', dA, b', dB :|
      && PathAnswer(net, occ, agv, last, start, end, false, a', dA)
      && PathAnswer(net, occ, agv, start, last, end, true, b', dB)
      && route == (if dA < dB then a' else b')
      && distance == if dA < dB then dA else dB;
    AnswerUnique(net, occ, agv, last, start, end, false, a, disA, a', dA);
    AnswerUnique(net, occ, agv, start, last, end, true, b, disB, b', dB);
  }

  ghost predicate NotNearer(net: Network, occ: Occupancy, agv: int, aim: int, s: Spirit, d: int) {
    s.Point? ==> forall r, d' :: HaltAt(net, occ, agv, aim, s.point, r, d') ==> d <= d'
  }

  lemma IdsPositive(m: seq<Spirit>, i: nat)
    requires IsMap(m) && i < |m|
    ensures m[i].Id() > 0
  {}

  lemma FreeAnswerUnique(net: Network, occ: Occupancy, from: int, to: int, r: seq<int>, d: int)
    requires FreeAnswer(net, occ, from, to, r, d)
    ensures d <= INFINITY
    ensures forall r', d' :: FreeAnswer(net, occ, from, to, r', d') ==> d' == d
  {
    forall r', d' | FreeAnswer(net, occ, from, to, r', d') ensures d' == d {
      ShortestUnique(net, occ, from, to, r, d, r', d');
    }
  }

  lemma IdsEmpty()
    ensures Ids([]) == []
  {}

  lemma IdsAppend(paths: seq<MapPath>, p: MapPath)
    ensures Ids(paths + [p]) == Ids(paths) + [p.id]
  {}

  predicate FirstTurnsBack(m: seq<Spirit>, route: seq<int>, last: int, start: int)
    requires |route| > 0
  {
    match SpiritById(m, route[0])
    case Some(Path(p)) => p.start == last && p.end == start
    case _ => false
  }

  /** A route starts at the start station, so the last correction of `getPath` never applies. */
  lemma NeverTurnsBack(net: Network, occ: Occupancy, qu: Query, route: seq<int>, distance: int, last: int)
    requires IsMap(net.m) && IsShortest(net, occ, qu, route, distance)
    requires route != [] && last != qu.start
    ensures !FirstTurnsBack(net.m, route, last, qu.start)
  {
    SpiritByIdFinds(net.m, route[0]);
    PathByIdFinds(net.m, route[0]);
    match SpiritById(net.m, route[0])
    case Some(Path(p)) => assert p in Paths(net.m);
    case _ =>
  }

  /** Without a finite distance there is no route. */
  lemma AnswerFinite(net: Network, occ: Occupancy, agv: int, last: int, start: int, end: int, changeDirect: bool,
                     route: seq<int>, distance: int)
    requires IsMap(net.m) && PathAnswer(net, occ, agv, last, start, end, changeDirect, route, distance)
    ensures distance <= INFINITY
    ensures distance == INFINITY ==> route == []
  {
    hide IsRoute, RouteLength, MayPlan;
    if MayPlan(net, occ, agv, last, start, end) && KnownStart(last, start) == end {
      forall p | p in Paths(net.m) ensures p.length < INFINITY {
        LengthBelowTotal(Paths(net.m), p);
      }
    }
  }

  lemma {:induction false} LengthBelowTotal(paths: seq<MapPath>, p: MapPath)
    requires p in paths && forall q :: q in paths ==> q.length >= 0
    ensures p.length <= TotalLength(paths)
  {
    if p != paths[0] {
      LengthBelowTotal(paths[1..], p);
    }
    TotalNatural(paths[1..]);
  }

  lemma {:induction false} TotalNatural(paths: seq<MapPath>)
    requires forall q :: q in paths ==> q.length >= 0
    ensures TotalLength(paths) >= 0
  {
    if paths != [] {
      TotalNatural(paths[1..]);
    }
  }

  lemma InvKeys(g: Graph, infos: Infos, q: Queue, walks: map<int, seq<int>>, done: set<int>, finished: set<int>)
    requires Inv(g, infos, q, walks, done, finished)
    ensures infos.Keys == g.len.Keys && g.allowed <= g.len.Keys && Sorted(q) && OncePerLine(q)
    ensures forall l :: l in done ==> l in infos && infos[l].color == Black
  {}

  lemma InvDone(g: Graph, infos: Infos, q: Queue, walks: map<int, seq<int>>, done: set<int>)
    requires Inv(g, infos, q, walks, done, done)
    ensures done <= g.allowed
  {}

  lemma InRoundMeans(g: Graph, infos: Infos, q: Queue, walks: map<int, seq<int>>, done: set<int>, s: int)
    requires Inv(g, infos, q, walks, done, done + {s}) && InRound(infos, s)
    ensures s in infos && s in g.allowed && s !in done
    ensures g.allowed <= g.len.Keys
  {}

  lemma StaysBlockedFinish(net: Network, occ: Occupancy, qu: Query, infos: Infos, s: int)
    requires StaysBlocked(net, occ, qu, infos) && s in infos
    ensures StaysBlocked(net, occ, qu, infos[s := infos[s].(color := Black)])
  {}

  /** The sum the search computes for a neighbour stays below `DISTANCE_INFINITY`. */
  lemma NoOverflowInRound(g: Graph, infos: Infos, q: Queue, walks: map<int, seq<int>>, done: set<int>, s: int, b: int)
    requires Inv(g, infos, q, walks, done, done + {s}) && InRound(infos, s)
    requires b in infos && b in g.len && infos[b].color != Black
    requires infos[b].color == White || infos[b].distance > infos[s].distance + g.len[b]
    ensures b != s && s in walks
    ensures 0 <= infos[s].distance + g.len[b] < INFINITY
  {
    hide QueueIsGray, Closed, DoneFirst, SumIn;
    assert Reached(infos, done, s);
    NoOverflow(g, infos, done, s, b);
  }

  lemma SourcesWhite(g: Graph, infos: Infos, q: Queue, walks: map<int, seq<int>>)
    requires Seeding(g, infos, q, walks)
    ensures forall l :: l in g.sources ==> l in infos && infos[l].color != Black
  {}

  /** How a line id appears in the graph of the query. */
  lemma IdInGraph(net: Network, occ: Occupancy, qu: Query, l: int)
    requires IsMap(net.m)
    ensures var g := GraphOf(net, occ, qu);
      && (l in g.len <==> l in Ids(Paths(net.m)))
      && (l in g.allowed <==> DrivableId(net, occ, qu, l))
      && (DrivableId(net, occ, qu, l) ==> !BlockedLine(net.m, occ, qu, l))
  {
    IdsAreLines(net.m, l);
  }

  /** How one path of the map appears in the graph of the query. */
  lemma LineInGraph(net: Network, occ: Occupancy, qu: Query, p: MapPath)
    requires IsMap(net.m) && p in Paths(net.m)
    ensures var g := GraphOf(net, occ, qu);
      && PathById(net.m, p.id) == Some(p)
      && p.id in g.len && g.len[p.id] == p.length
      && (p.id in g.allowed <==> Drivable(net, occ, qu, p))
      && (p.id in g.sources <==> p.id in g.allowed && p.start == qu.start)
  {
    hide Passable, Drivable;
    PathByIdFinds(net.m, p.id);
    IdsAreLines(net.m, p.id);
  }

  lemma PreparedIsSeeding(net: Network, occ: Occupancy, qu: Query, g: Graph, infos: Infos)
    requires IsMap(net.m) && Prepared(net, occ, qu, infos) && g == GraphOf(net, occ, qu)
    ensures Seeding(g, infos, [], map[])
    ensures StaysBlocked(net, occ, qu, infos)
    ensures forall k :: 0 <= k < |Paths(net.m)| ==>
              Paths(net.m)[k].id in infos && infos[Paths(net.m)[k].id].color != Gray
  {
    hide GraphOf, DrivableId, BlockedLine, WellFormed, SumIn, PathById, IsMap;
    var paths := Paths(net.m);
    GraphWellFormed(net, occ, qu);
    assert forall k :: 0 <= k < |paths| ==> Ids(paths)[k] == paths[k].id;
    forall l ensures l in g.len.Keys <==> l in infos.Keys {
      IdInGraph(net, occ, qu, l);
    }
    forall l | l in g.allowed ensures !BlockedLine(net.m, occ, qu, l) {
      IdInGraph(net, occ, qu, l);
    }
    assert infos.Keys == g.len.Keys;
    assert g.allowed <= g.len.Keys by { GraphSets(net, occ, qu); }
  }

  lemma GraphSets(net: Network, occ: Occupancy, qu: Query)
    requires IsMap(net.m)
    ensures GraphOf(net, occ, qu).sources <= GraphOf(net, occ, qu).allowed <= GraphOf(net, occ, qu).len.Keys
    ensures GraphOf(net, occ, qu).adj == net.adj
  {
    hide DrivableId, PathById, IsMap;
  }

  /** Every source is a path of the map that leaves the start station. */
  lemma SourcesGray(net: Network, occ: Occupancy, qu: Query, g: Graph, infos: Infos)
    requires IsMap(net.m) && g == GraphOf(net, occ, qu)
    requires forall k :: 0 <= k < |Paths(net.m)| && Paths(net.m)[k].id in g.sources ==>
               Paths(net.m)[k].id in infos && infos[Paths(net.m)[k].id].color == Gray
    ensures forall s :: s in g.sources ==> s in infos && infos[s].color == Gray
  {
    hide GraphOf, DrivableId, PathById, IsMap;
    var paths := Paths(net.m);
    GraphSets(net, occ, qu);
    forall s | s in g.sources ensures s in infos && infos[s].color == Gray {
      IdInGraph(net, occ, qu, s);
      var k :| 0 <= k < |paths| && Ids(paths)[k] == s;
      assert paths[k].id == s;
    }
  }

  lemma {:induction false} RemoveAllAppend(s: seq<int>, t: seq<int>, x: int)
    ensures RemoveAll(s + t, x) == RemoveAll(s, x) + RemoveAll(t, x)
  {
    if t == [] {
      assert s + t == s;
    } else {
      RemoveAllAppend(s, t[..|t| - 1], x);
      assert (s + t)[..|s + t| - 1] == s + t[..|t| - 1];
    }
  }

  lemma RemoveAllSkips(s: seq<int>, i: nat, x: int)
    requires i < |s| && s[i] == x
    ensures RemoveAll(s[..i] + s[i + 1..], x) == RemoveAll(s, x)
  {
    assert s == s[..i] + [x] + s[i + 1..];
    RemoveAllAppend(s[..i] + [x], s[i + 1..], x);
    RemoveAllAppend(s[..i], [x], x);
    RemoveAllAppend(s[..i], s[i + 1..], x);
    assert RemoveAll([x], x) == [];
  }

  lemma {:induction false} RemoveAllKeeps(s: seq<int>, x: int)
    requires forall k :: 0 <= k < |s| ==> s[k] != x
    ensures RemoveAll(s, x) == s
  {
    if s != [] {
      RemoveAllKeeps(s[..|s| - 1], x);
      assert s == s[..|s| - 1] + [s[|s| - 1]];
    }
  }
}
