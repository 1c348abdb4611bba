/** The rules of the road, written out in terms of points, lines and reservations, and proofs that the line
    relations, the filter and the planner's answers amount to them. */
module RoadRules {
  import opened Wrappers
  import opened Maps
  import opened Reservations
  import opened LineSearch
  import opened Routes
  import opened ShortestRoutes

  // ---------------------------------------------------------------- points

  /** The station is a point of the map at this place. */
  ghost predicate At(m: seq<Spirit>, station: int, x: int, y: int) {
    exists p :: Point(p) in m && p.id == station && p.realX == x && p.realY == y
  }

  ghost predicate Known(m: seq<Spirit>, station: int) {
    exists p :: Point(p) in m && p.id == station
  }

  lemma PointOfIs(m: seq<Spirit>, id: int)
    requires UniqueIds(m)
    ensures forall p :: PointOf(m, id) == Some(p) <==> Point(p) in m && p.id == id
    ensures IsPoint(m, id) <==> Known(m, id)
  {
    SpiritByIdFinds(m, id);
    forall p | Point(p) in m && p.id == id ensures PointOf(m, id) == Some(p) {
      var i :| 0 <= i < |m| && m[i] == Point(p);
      SpiritByIdAt(m, i);
    }
  }

  // ---------------------------------------------------------------- lines driven against each other

  /** Two lines that join the same two places, backwards. */
  ghost predicate FaceToFace(m: seq<Spirit>, a: MapPath, b: MapPath) {
    a.id != b.id && exists x, y, x', y' ::
      At(m, a.start, x, y) && At(m, b.end, x, y) && At(m, a.end, x', y') && At(m, b.start, x', y')
  }

  lemma AtIs(m: seq<Spirit>, station: int, x: int, y: int)
    requires UniqueIds(m)
    ensures At(m, station, x, y) <==>
              PointOf(m, station).Some? && PointOf(m, station).value.realX == x && PointOf(m, station).value.realY == y
  {
    hide PointOf, UniqueIds;
    PointOfIs(m, station);
    if PointOf(m, station).Some? {
      var p := PointOf(m, station).value;
      assert PointOf(m, station) == Some(p);
    }
  }

  lemma OpposesIsFaceToFace(m: seq<Spirit>, a: MapPath, b: MapPath)
    requires UniqueIds(m)
    ensures Opposes(m, a, b) <==> FaceToFace(m, a, b)
  {
    hide PointOf, UniqueIds, At;
    forall station, x, y
      ensures At(m, station, x, y) <==>
              PointOf(m, station).Some? && PointOf(m, station).value.realX == x && PointOf(m, station).value.realY == y
    {
      AtIs(m, station, x, y);
    }
    if Opposes(m, a, b) {
      var p, q := PointOf(m, a.start).value, PointOf(m, a.end).value;
      assert At(m, a.start, p.realX, p.realY) && At(m, a.end, q.realX, q.realY);
      assert At(m, b.end, p.realX, p.realY) && At(m, b.start, q.realX, q.realY);
    }
  }

  /** The reverse relation lists exactly the lines that join the same two places backwards. */
  lemma ListedIff(net: Network, a: MapPath, b: MapPath)
    requires Loaded(net) && a in Paths(net.m) && b in Paths(net.m)
    ensures b.id in Successors(net.reverse, a.id) <==> FaceToFace(net.m, a, b)
  {
    OpposesIsFaceToFace(net.m, a, b);
  }

  /** So a line between the same two stations backwards is listed, and one the same way between different
      places is not. */
  lemma ListedBackwards(net: Network, a: MapPath, b: MapPath, p: MapPoint, q: MapPoint)
    requires Loaded(net) && a in Paths(net.m) && b in Paths(net.m) && a.id != b.id
    requires Point(p) in net.m && Point(q) in net.m && p.id == a.start && q.id == a.end
    ensures a.start == b.end && a.end == b.start ==> b.id in Successors(net.reverse, a.id)
    ensures a.start == b.start && a.end == b.end && (p.realX != q.realX || p.realY != q.realY) ==>
              b.id !in Successors(net.reverse, a.id)
  {
    ListedIff(net, a, b);
    assert At(net.m, a.start, p.realX, p.realY) && At(net.m, a.end, q.realX, q.realY);
    AtIs(net.m, a.start, p.realX, p.realY);
    AtIs(net.m, a.end, q.realX, q.realY);
    if a.start == b.start && a.end == b.end && FaceToFace(net.m, a, b) {
      var x, y, x', y' :| At(net.m, a.start, x, y) && At(net.m, b.end, x, y) && At(net.m, a.end, x', y') && At(net.m, b.start, x', y');
      AtIs(net.m, a.start, x, y);
      AtIs(net.m, a.end, x, y);
    }
  }

  // ---------------------------------------------------------------- the test of one line

  /** The list names nobody, or the vehicle alone. */
  predicate NobodyElse(holders: seq<int>, agv: int) {
    holders == [] || holders == [agv]
  }

  /** The station is the start or the goal of the route, or a point to load at, or without turning, one line
      away from them. */
  ghost predicate Exempt(m: seq<Spirit>, from: int, goal: int, station: int) {
    || station == from || station == goal
    || exists p, l ::
         && Point(p) in m && p.id == station && p.pointType in {NoUturn, Load, LoadUnload}
         && Path(l) in m && ((l.start == from && l.end == station) || (l.end == goal && l.start == station))
  }

  /** The line ends at a known point, and it does not end where others work, unless it touches an exempt
      station. */
  ghost predicate EndAllowed(m: seq<Spirit>, from: int, goal: int, line: MapPath) {
    exists p :: Point(p) in m && p.id == line.end &&
      (p.pointType in {Charge, Load, Unload, LoadUnload, NoUturn} ==>
        Exempt(m, from, goal, line.start) || Exempt(m, from, goal, line.end))
  }

  /** What a line must be like for the vehicle to drive it on its way from one station to another. */
  ghost predicate OpenLine(m: seq<Spirit>, occ: Occupancy, agv: int, from: int, goal: int, line: MapPath) {
    && EndAllowed(m, from, goal, line)
    && (forall r :: Path(r) in m && FaceToFace(m, line, r) ==> NobodyElse(Holders(occ, r.id), agv))
    && Owner(occ, line.end) in {0, agv}
    && (forall g :: Group(g) in m && g.groupType == COMMON_GROUP && (line.id in g.spirits || line.end in g.spirits) ==>
         g.id !in occ.groups || occ.groups[g.id].agv == agv)
    && (line.start == goal ==> NobodyElse(Holders(occ, line.id), agv))
  }

  /** Nothing but lines of the map is held as a line. */
  ghost predicate OnlyLinesHeld(m: seq<Spirit>, occ: Occupancy) {
    forall l :: Holders(occ, l) != [] ==> exists p :: Path(p) in m && p.id == l
  }

  lemma {:induction false} UturnPointsAre(m: seq<Spirit>, paths: seq<MapPath>, from: int, goal: int, x: int)
    requires UniqueIds(m)
    ensures x in UturnPoints(m, paths, from, goal) <==>
              || x == from || x == goal
              || exists p, l ::
                   && Point(p) in m && p.id == x && p.pointType in {NoUturn, Load, LoadUnload}
                   && l in paths && ((l.start == from && l.end == x) || (l.end == goal && l.start == x))
  {
    hide UniqueIds, PointById;
    if paths != [] {
      var rest, last := paths[..|paths| - 1], paths[|paths| - 1];
      assert paths == rest + [last];
      UturnPointsAre(m, rest, from, goal, x);
      PointByIdFinds(m, last.end);
      PointByIdFinds(m, last.start);
    }
  }

  lemma ExemptIs(m: seq<Spirit>, from: int, goal: int, x: int)
    requires UniqueIds(m)
    ensures x in UturnPoints(m, Paths(m), from, goal) <==> Exempt(m, from, goal, x)
  {
    hide UniqueIds, UturnPoints;
    UturnPointsAre(m, Paths(m), from, goal, x);
  }

  lemma HeldIff(holders: seq<int>, agv: int)
    ensures HeldByOther(holders, agv) <==> !NobodyElse(holders, agv)
  {}

  /** No listed line is held by anybody else exactly when no line the other way is. */
  lemma ReversesAre(net: Network, occ: Occupancy, agv: int, line: MapPath)
    requires Loaded(net) && line in Paths(net.m)
    ensures ReversesFree(Successors(net.reverse, line.id), occ, agv) ==>
              forall r :: Path(r) in net.m && FaceToFace(net.m, line, r) ==> NobodyElse(Holders(occ, r.id), agv)
    ensures OnlyLinesHeld(net.m, occ) &&
            (forall r :: Path(r) in net.m && FaceToFace(net.m, line, r) ==> NobodyElse(Holders(occ, r.id), agv)) ==>
              ReversesFree(Successors(net.reverse, line.id), occ, agv)
  {
    hide FaceToFace, Holders, HeldByOther, NobodyElse, UniqueIds;
    var reverses := Successors(net.reverse, line.id);
    forall r ensures HeldByOther(Holders(occ, r), agv) <==> !NobodyElse(Holders(occ, r), agv) {
      HeldIff(Holders(occ, r), agv);
    }
    forall r | Path(r) in net.m ensures r.id > 0 && (r.id in reverses <==> FaceToFace(net.m, line, r)) {
      ListedIff(net, line, r);
    }
    if OnlyLinesHeld(net.m, occ) {
      forall r | r in reverses && HeldByOther(Holders(occ, r), agv)
        ensures exists p :: Path(p) in net.m && FaceToFace(net.m, line, p) && p.id == r
      {
        HeldIsNotEmpty(Holders(occ, r), agv);
        var p :| Path(p) in net.m && p.id == r;
      }
    }
  }

  lemma HeldIsNotEmpty(holders: seq<int>, agv: int)
    requires HeldByOther(holders, agv)
    ensures holders != []
  {}

  lemma EndIs(m: seq<Spirit>, from: int, goal: int, line: MapPath)
    requires UniqueIds(m)
    ensures var exempt := UturnPoints(m, Paths(m), from, goal);
      EndAllowed(m, from, goal, line) <==>
        && PointById(m, line.end).Some?
        && (line.start in exempt || line.end in exempt || !IsWorkPoint(PointById(m, line.end).value.pointType))
  {
    hide UniqueIds, UturnPoints, PointById, Exempt;
    PointByIdFinds(m, line.end);
    ExemptIs(m, from, goal, line.start);
    ExemptIs(m, from, goal, line.end);
    if PointById(m, line.end).Some? {
      var p := PointById(m, line.end).value;
      assert Point(p) in m && p.id == line.end;
    }
  }

  lemma GroupsAre(m: seq<Spirit>, occ: Occupancy, agv: int, line: MapPath)
    ensures GroupsFree(Groups(m, COMMON_GROUP), occ, line, agv) <==>
              forall g :: Group(g) in m && g.groupType == COMMON_GROUP && (line.id in g.spirits || line.end in g.spirits) ==>
                g.id !in occ.groups || occ.groups[g.id].agv == agv
  {}

  /** The filter of the planner is these rules. */
  lemma DrivableIsOpen(net: Network, occ: Occupancy, agv: int, from: int, goal: int, line: MapPath)
    requires Loaded(net) && line in Paths(net.m)
    ensures Drivable(net, occ, Query(true, agv, from, goal), line) ==> OpenLine(net.m, occ, agv, from, goal, line)
    ensures OnlyLinesHeld(net.m, occ) && OpenLine(net.m, occ, agv, from, goal, line) ==>
              Drivable(net, occ, Query(true, agv, from, goal), line)
  {
    EndIs(net.m, from, goal, line);
    ReversesAre(net, occ, agv, line);
    GroupsAre(net.m, occ, agv, line);
    HeldIff(Holders(occ, line.id), agv);
    hide EndAllowed, ReversesFree, FaceToFace, GroupsFree, UturnPoints, PointById, Successors, HeldByOther, NobodyElse, Holders;
    hide Loaded, IsWorkPoint, OnlyLinesHeld;
  }

  // ---------------------------------------------------------------- trips

  /** Lines of the map from one station to another, each starting where the one before ends, without turning
      straight back. */
  ghost predicate Trip(m: seq<Spirit>, from: int, goal: int, lines: seq<MapPath>) {
    && |lines| > 0 && lines[0].start == from && lines[|lines| - 1].end == goal
    && (forall i :: 0 <= i < |lines| ==> Path(lines[i]) in m)
    && forall i :: 0 <= i < |lines| - 1 ==> Joined(lines[i], lines[i + 1])
  }

  predicate Joined(a: MapPath, b: MapPath) {
    a.id != b.id && a.end == b.start && a.start != b.end
  }

  /** The trip takes only lines that are open to the vehicle. */
  ghost predicate OpenTrip(m: seq<Spirit>, occ: Occupancy, agv: int, from: int, goal: int, lines: seq<MapPath>) {
    Trip(m, from, goal, lines) && forall i :: 0 <= i < |lines| ==> OpenLine(m, occ, agv, from, goal, lines[i])
  }

  lemma SuccessorsAre(net: Network, a: MapPath, b: MapPath)
    requires Loaded(net) && a in Paths(net.m) && b in Paths(net.m)
    ensures b.id in Successors(net.adj, a.id) <==> Joined(a, b)
  {
    hide Opposes, IsMap, Successors;
  }

  lemma {:induction false} TripLength(m: seq<Spirit>, lines: seq<MapPath>)
    requires forall i :: 0 <= i < |lines| ==> PathById(m, lines[i].id) == Some(lines[i])
    ensures RouteLength(m, Ids(lines)) == TotalLength(lines)
  {
    hide PathById;
    if lines != [] {
      TripLength(m, lines[1..]);
      assert Ids(lines) == [lines[0].id] + Ids(lines[1..]);
      RouteLengthAppend(m, [lines[0].id], Ids(lines[1..]));
      assert [lines[0].id][..0] == [];
      assert RouteLength(m, [lines[0].id]) == RouteLength(m, []) + LengthOf(m, lines[0].id);
    }
  }

  lemma LinesFound(m: seq<Spirit>, lines: seq<MapPath>)
    requires UniqueIds(m) && forall i :: 0 <= i < |lines| ==> Path(lines[i]) in m
    ensures forall i :: 0 <= i < |lines| ==> lines[i] in Paths(m) && PathById(m, lines[i].id) == Some(lines[i])
  {
    forall i | 0 <= i < |lines| ensures lines[i] in Paths(m) && PathById(m, lines[i].id) == Some(lines[i]) {
      PathByIdFinds(m, lines[i].id);
    }
  }

  /** Trips over lines that pass the filter are routes. */
  lemma TripIsRoute(net: Network, occ: Occupancy, qu: Query, lines: seq<MapPath>)
    requires Loaded(net) && Trip(net.m, qu.start, qu.end, lines)
    requires forall i :: 0 <= i < |lines| ==> Drivable(net, occ, qu, lines[i])
    ensures IsRoute(net, occ, qu, Ids(lines)) && RouteLength(net.m, Ids(lines)) == TotalLength(lines)
  {
    LoadedIsMap(net);
    hide Drivable, RouteLength, PathById, Loaded, Successors, Joined, TotalLength, UniqueIds;
    LinesFound(net.m, lines);
    TripLength(net.m, lines);
    var w := Ids(lines);
    forall i | 0 <= i < |w| ensures DrivableId(net, occ, qu, w[i]) && w[i] == lines[i].id {}
    forall i | 0 <= i < |w| - 1 ensures w[i + 1] in Successors(net.adj, w[i]) {
      SuccessorsAre(net, lines[i], lines[i + 1]);
      assert Joined(lines[i], lines[i + 1]);
    }
    hide DrivableId;
  }

  /** A route is a trip over lines that pass the filter. */
  lemma RouteIsTrip(net: Network, occ: Occupancy, qu: Query, w: seq<int>) returns (lines: seq<MapPath>)
    requires Loaded(net) && IsRoute(net, occ, qu, w)
    ensures w == Ids(lines) && Trip(net.m, qu.start, qu.end, lines) && RouteLength(net.m, w) == TotalLength(lines)
    ensures forall i :: 0 <= i < |lines| ==> lines[i] in Paths(net.m) && Drivable(net, occ, qu, lines[i])
  {
    hide Drivable, RouteLength, PathById, Loaded, Successors, Joined, TotalLength, UniqueIds, KnownPaths;
    RoutePaths(net, occ, qu, w);
    lines := KnownPaths(net.m, w);
    KnownPathsAre(net.m, w);
    forall i | 0 <= i < |lines| ensures lines[i] in Paths(net.m) && Drivable(net, occ, qu, lines[i]) {
      assert lines[i] in lines;
      assert DrivableId(net, occ, qu, w[i]);
    }
    TripLength(net.m, lines);
    forall i | 0 <= i < |lines| - 1 ensures Joined(lines[i], lines[i + 1]) {
      assert w[i + 1] in Successors(net.adj, w[i]);
      SuccessorsAre(net, lines[i], lines[i + 1]);
    }
    assert w == Ids(lines);
    hide IsRoute;
  }

  // ---------------------------------------------------------------- the planner's answers

  /** What a planning call needs of its stations: all are points, and the first and the last are free for the
      vehicle. */
  ghost predicate MayGo(m: seq<Spirit>, occ: Occupancy, agv: int, last: int, from: int, goal: int) {
    && (last > 0 ==> Known(m, last)) && Known(m, from) && Known(m, goal)
    && Owner(occ, from) in {0, agv} && Owner(occ, goal) in {0, agv}
  }

  lemma KnownIsPositive(m: seq<Spirit>, station: int)
    requires IsMap(m) && Known(m, station)
    ensures station > 0
  {
    var p :| Point(p) in m && p.id == station;
    var i :| 0 <= i < |m| && m[i] == Point(p);
  }

  lemma MayPlanIs(net: Network, occ: Occupancy, agv: int, last: int, start: int, goal: int, from: int)
    requires IsMap(net.m) && from == if start > 0 then start else last
    ensures MayPlan(net, occ, agv, last, start, goal) <==> MayGo(net.m, occ, agv, last, from, goal)
    ensures MayPlan(net, occ, agv, last, start, goal) ==> KnownStart(last, start) == from && (last > 0 || start > 0)
  {
    var m := net.m;
    if MayGo(m, occ, agv, last, from, goal) {
      KnownIsPositive(m, from);
      KnownIsPositive(m, goal);
    }
    forall x ensures IsPoint(m, x) <==> Known(m, x) {
      PointOfIs(m, x);
    }
    hide IsPoint, Known, Owner, IsMap;
  }

  /** A planned route, from where the vehicle is known to be to a goal elsewhere, is a trip over open lines: no
      line of it ends at a station that another vehicle owns. */
  lemma PlannedTrip(net: Network, occ: Occupancy, agv: int, last: int, start: int, goal: int, turn: bool,
                    route: seq<int>, distance: int, from: int) returns (lines: seq<MapPath>)
    requires Loaded(net) && PathAnswer(net, occ, agv, last, start, goal, turn, route, distance)
    requires route != [] && from == (if start > 0 then start else last) && from != goal
    ensures MayGo(net.m, occ, agv, last, from, goal)
    ensures OpenTrip(net.m, occ, agv, from, goal, lines)
    ensures |lines| == |route| && forall i :: 0 <= i < |route| ==> route[i] == lines[i].id
    ensures distance == TotalLength(lines) < INFINITY
    ensures forall i :: 0 <= i < |route| ==> Owner(occ, lines[i].end) == 0 || Owner(occ, lines[i].end) == agv
  {
    LoadedIsMap(net);
    MayPlanIs(net, occ, agv, last, start, goal, from);
    var qu := Query(true, agv, from, goal);
    assert IsShortest(net, occ, qu, route, distance) by { hide IsShortest, MayPlan; }
    hide PathAnswer, MayPlan, MayGo, OpenLine, Drivable, RouteLength, TotalLength, Trip, Loaded, IsRoute, IsMap;
    lines := RouteIsTrip(net, occ, qu, route);
    forall i | 0 <= i < |lines| ensures OpenLine(net.m, occ, agv, from, goal, lines[i]) {
      DrivableIsOpen(net, occ, agv, from, goal, lines[i]);
    }
    forall i | 0 <= i < |lines| ensures Owner(occ, lines[i].end) in {0, agv} {
      OpenMeansFree(net.m, occ, agv, from, goal, lines[i]);
    }
  }

  lemma OpenMeansFree(m: seq<Spirit>, occ: Occupancy, agv: int, from: int, goal: int, line: MapPath)
    requires OpenLine(m, occ, agv, from, goal, line)
    ensures Owner(occ, line.end) in {0, agv}
  {}

  /** A route that does not turn around leads elsewhere. */
  lemma LeadsElsewhere(net: Network, occ: Occupancy, agv: int, last: int, start: int, goal: int, route: seq<int>,
                       distance: int, from: int)
    requires PathAnswer(net, occ, agv, last, start, goal, false, route, distance) && route != []
    requires from == if start > 0 then start else last
    ensures from != goal
  {
    hide IsShortest, StationFree, IsPoint, Joining;
  }

  /** Work points on a planned route: each is the end of a line that touches the start, the goal, or a point to
      load at, or without turning, one line away from them. */
  lemma PlannedWorkPoints(net: Network, occ: Occupancy, agv: int, last: int, start: int, goal: int, turn: bool,
                          route: seq<int>, distance: int, from: int, i: nat, line: MapPath, p: MapPoint)
    requires Loaded(net) && PathAnswer(net, occ, agv, last, start, goal, turn, route, distance)
    requires from == (if start > 0 then start else last) && from != goal
    requires i < |route| && PathById(net.m, route[i]) == Some(line) && Point(p) in net.m && p.id == line.end
    requires p.pointType.Charge? || p.pointType.Load? || p.pointType.Unload? || p.pointType.LoadUnload? || p.pointType.NoUturn?
    ensures line.start == from || line.end == goal || line.start == goal || line.end == from
            || exists q, l ::
                 && Point(q) in net.m && (q.id == line.start || q.id == line.end)
                 && (q.pointType.NoUturn? || q.pointType.Load? || q.pointType.LoadUnload?)
                 && Path(l) in net.m && ((l.start == from && l.end == q.id) || (l.end == goal && l.start == q.id))
  {
    LoadedIsMap(net);
    var lines := PlannedTrip(net, occ, agv, last, start, goal, turn, route, distance, from);
    assert UniqueIds(net.m);
    hide *;
    LinesOfTrip(net.m, occ, agv, from, goal, lines, i);
    assert lines[i] == line;
    TripIsOpen(net.m, occ, agv, from, goal, lines, i);
    WorkEnd(net.m, occ, agv, from, goal, line, p);
  }

  lemma LinesOfTrip(m: seq<Spirit>, occ: Occupancy, agv: int, from: int, goal: int, lines: seq<MapPath>, i: nat)
    requires UniqueIds(m) && OpenTrip(m, occ, agv, from, goal, lines) && i < |lines|
    ensures PathById(m, lines[i].id) == Some(lines[i])
  {
    hide PathById, UniqueIds, OpenLine;
    LinesFound(m, lines);
  }

  lemma TripIsOpen(m: seq<Spirit>, occ: Occupancy, agv: int, from: int, goal: int, lines: seq<MapPath>, i: nat)
    requires OpenTrip(m, occ, agv, from, goal, lines) && i < |lines|
    ensures OpenLine(m, occ, agv, from, goal, lines[i])
  {}

  lemma WorkEnd(m: seq<Spirit>, occ: Occupancy, agv: int, from: int, goal: int, line: MapPath, p: MapPoint)
    requires UniqueIds(m) && OpenLine(m, occ, agv, from, goal, line) && Point(p) in m && p.id == line.end
    requires p.pointType.Charge? || p.pointType.Load? || p.pointType.Unload? || p.pointType.LoadUnload? || p.pointType.NoUturn?
    ensures line.start == from || line.end == goal || line.start == goal || line.end == from
            || exists q, l ::
                 && Point(q) in m && (q.id == line.start || q.id == line.end)
                 && (q.pointType.NoUturn? || q.pointType.Load? || q.pointType.LoadUnload?)
                 && Path(l) in m && ((l.start == from && l.end == q.id) || (l.end == goal && l.start == q.id))
  {
    OnePoint(m, p);
    hide UniqueIds, FaceToFace, Holders, Owner;
    assert Exempt(m, from, goal, line.start) || Exempt(m, from, goal, line.end);
  }

  lemma OnePoint(m: seq<Spirit>, p: MapPoint)
    requires UniqueIds(m) && Point(p) in m
    ensures forall q :: Point(q) in m && q.id == p.id ==> q == p
  {
    PointByIdFinds(m, p.id);
  }

  /** Every trip over open lines is matched by the answer: there is a route, and it is no longer. */
  lemma NoShorterTrip(net: Network, occ: Occupancy, agv: int, last: int, start: int, goal: int, turn: bool,
                      route: seq<int>, distance: int, from: int, lines: seq<MapPath>)
    requires Loaded(net) && PathAnswer(net, occ, agv, last, start, goal, turn, route, distance)
    requires from == (if start > 0 then start else last) && from != goal
    requires MayGo(net.m, occ, agv, last, from, goal) && OnlyLinesHeld(net.m, occ)
    requires OpenTrip(net.m, occ, agv, from, goal, lines)
    ensures route != [] && distance <= TotalLength(lines)
  {
    LoadedIsMap(net);
    MayPlanIs(net, occ, agv, last, start, goal, from);
    var qu := Query(true, agv, from, goal);
    assert IsShortest(net, occ, qu, route, distance) by { hide IsShortest, MayPlan; }
    LinesFound(net.m, lines);
    hide PathAnswer, MayPlan, MayGo, OpenLine, Drivable, RouteLength, TotalLength, Trip, Loaded, IsRoute, IsMap, PathById;
    hide OnlyLinesHeld;
    forall i | 0 <= i < |lines| ensures Drivable(net, occ, qu, lines[i]) {
      DrivableIsOpen(net, occ, agv, from, goal, lines[i]);
    }
    TripIsRoute(net, occ, qu, lines);
  }

  /** Without such a trip, or when a station is unknown or taken, the answer is no route at infinite distance. */
  lemma NothingPlanned(net: Network, occ: Occupancy, agv: int, last: int, start: int, goal: int, turn: bool,
                       route: seq<int>, distance: int, from: int)
    requires Loaded(net) && PathAnswer(net, occ, agv, last, start, goal, turn, route, distance)
    requires from == (if start > 0 then start else last)
    requires !MayGo(net.m, occ, agv, last, from, goal)
             || (from != goal && forall lines :: !OpenTrip(net.m, occ, agv, from, goal, lines))
    ensures route == [] && distance == 0x7FFF_FFFF
  {
    LoadedIsMap(net);
    MayPlanIs(net, occ, agv, last, start, goal, from);
    if MayGo(net.m, occ, agv, last, from, goal) && route != [] {
      var lines := PlannedTrip(net, occ, agv, last, start, goal, turn, route, distance, from);
    }
    hide IsMap, MayGo, MayPlan, IsRoute, RouteLength;
  }

  /** A vehicle that is at its goal needs no route.  When it may turn around, it gets every line from the
      station it came from to this one, and the length of the last of them. */
  lemma AlreadyThere(net: Network, occ: Occupancy, agv: int, last: int, start: int, goal: int, turn: bool,
                     route: seq<int>, distance: int)
    requires Loaded(net) && PathAnswer(net, occ, agv, last, start, goal, turn, route, distance)
    requires goal == (if start > 0 then start else last) && MayGo(net.m, occ, agv, last, goal, goal)
    ensures forall l :: l in route <==>
              turn && last > 0 && last != goal && exists p :: Path(p) in net.m && p.id == l && p.start == last && p.end == goal
    ensures route == [] ==> distance == 0
    ensures route != [] ==> exists p :: Path(p) in net.m && p.id == route[|route| - 1] && p.length == distance
  {
    LoadedIsMap(net);
    MayPlanIs(net, occ, agv, last, start, goal, goal);
    var known := if last > 0 then last else goal;
    assert StandsAtGoal(net, known, goal, turn, route, distance) by { hide IsMap, MayGo, MayPlan, StandsAtGoal; }
    hide *;
    LinesBetween(net, known, goal, turn, route, distance);
  }

  lemma LinesBetween(net: Network, last: int, goal: int, turn: bool, route: seq<int>, distance: int)
    requires StandsAtGoal(net, last, goal, turn, route, distance)
    ensures forall l :: l in route <==>
              turn && last != goal && exists p :: Path(p) in net.m && p.id == l && p.start == last && p.end == goal
    ensures route == [] ==> distance == 0
    ensures route != [] ==> exists p :: Path(p) in net.m && p.id == route[|route| - 1] && p.length == distance
  {
    hide Joining, Ids;
    var joining := if turn && last != goal then Joining(Paths(net.m), last, goal) else [];
    IdsOf(joining);
    assert |route| == |joining| by { IdsLength(joining); }
  }

  lemma IdsLength(paths: seq<MapPath>)
    ensures |Ids(paths)| == |paths|
  {}

  lemma IdsOf(paths: seq<MapPath>)
    ensures forall l :: l in Ids(paths) <==> exists p :: p in paths && p.id == l
    ensures paths != [] ==> paths[|paths| - 1] in paths && Ids(paths)[|paths| - 1] == paths[|paths| - 1].id
  {
    forall l ensures l in Ids(paths) <==> exists p :: p in paths && p.id == l {
      if l in Ids(paths) {
        var i :| 0 <= i < |paths| && Ids(paths)[i] == l;
        assert paths[i] in paths;
      }
      if exists p :: p in paths && p.id == l {
        var p :| p in paths && p.id == l;
        var i :| 0 <= i < |paths| && paths[i] == p;
        assert Ids(paths)[i] == l;
      }
    }
  }

  // ---------------------------------------------------------------- trips without reservations

  /** The answer of the search that ignores reservations, between two different points: a shortest trip. */
  lemma FreeTrip(net: Network, occ: Occupancy, from: int, goal: int, route: seq<int>, distance: int) returns (lines: seq<MapPath>)
    requires Loaded(net) && FreeAnswer(net, occ, from, goal, route, distance) && distance < INFINITY && from != goal
    ensures Known(net.m, from) && Known(net.m, goal)
    ensures Trip(net.m, from, goal, lines) && distance == TotalLength(lines)
    ensures |lines| == |route| && forall i :: 0 <= i < |route| ==> route[i] == lines[i].id
  {
    LoadedIsMap(net);
    PointOfIs(net.m, from);
    PointOfIs(net.m, goal);
    hide Trip, Loaded, IsMap, TotalLength, RouteLength, IsRoute, Drivable;
    lines := RouteIsTrip(net, occ, Query(false, 0, from, goal), route);
  }

  lemma NoShorterFreeTrip(net: Network, occ: Occupancy, from: int, goal: int, route: seq<int>, distance: int,
                          lines: seq<MapPath>)
    requires Loaded(net) && FreeAnswer(net, occ, from, goal, route, distance)
    requires Known(net.m, from) && Known(net.m, goal) && (from != goal ==> Trip(net.m, from, goal, lines))
    ensures distance <= if from == goal then 0 else TotalLength(lines)
  {
    LoadedIsMap(net);
    PointOfIs(net.m, from);
    PointOfIs(net.m, goal);
    KnownIsPositive(net.m, from);
    KnownIsPositive(net.m, goal);
    hide Trip, Loaded, IsMap, TotalLength, RouteLength, IsRoute;
    if from != goal {
      TripIsRoute(net, occ, Query(false, 0, from, goal), lines);
    }
  }

  /** The nearest halt point: a halt point that is free for the vehicle, with a trip to the goal unless it is
      the goal; no halt point that is free for the vehicle is nearer to the goal, and those before it in the
      list are farther. */
  lemma NearestHaltIs(net: Network, occ: Occupancy, agv: int, aim: int, halt: int)
    returns (i: nat, p: MapPoint, d: int, lines: seq<MapPath>)
    requires Loaded(net) && NearestHalt(net, occ, agv, aim, halt)
    ensures i < |net.m| && net.m[i] == Point(p) && p.id == halt && p.pointType == Halt && Owner(occ, halt) in {0, agv}
    ensures if halt == aim then d == 0 else Trip(net.m, halt, aim, lines) && d == TotalLength(lines)
    ensures forall k, q, r, e | 0 <= k < |net.m| && net.m[k] == Point(q) && q.pointType == Halt
              && Owner(occ, q.id) in {0, agv} && FreeAnswer(net, occ, q.id, aim, r, e) :: d <= e && (k < i ==> d < e)
  {
    LoadedIsMap(net);
    hide FreeAnswer, Loaded, Owner;
    var r;
    i, r, d :| 0 <= i < |net.m| && net.m[i].Id() == halt && FirstHalt(net, occ, agv, aim, i, r, d);
    p := net.m[i].point;
    lines := [];
    HaltPositive(net.m, i);
    if halt != aim {
      lines := FreeTrip(net, occ, halt, aim, r, d);
    } else {
      StayingIsFree(net, occ, halt, r, d);
    }
    forall k, q, r', e | 0 <= k < |net.m| && net.m[k] == Point(q) && q.pointType == Halt
      && Owner(occ, q.id) in {0, agv} && FreeAnswer(net, occ, q.id, aim, r', e)
      ensures d <= e && (k < i ==> d < e)
    {
      assert HaltAt(net, occ, agv, aim, q, r', e);
      assert k < i ==> Farther(net, occ, agv, aim, net.m[k], d);
    }
  }

  lemma HaltPositive(m: seq<Spirit>, i: nat)
    requires IsMap(m) && i < |m|
    ensures m[i].Id() > 0
  {}

  lemma StayingIsFree(net: Network, occ: Occupancy, station: int, route: seq<int>, distance: int)
    requires station > 0 && FreeAnswer(net, occ, station, station, route, distance)
    ensures distance == 0
  {}
}
