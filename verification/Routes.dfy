/** What a route is: the filter a line must pass for one planning call, and the routes the planner
    may choose from.  This is the reference definition the search is proved against. */
module Routes {
  import opened Wrappers
  import opened Maps
  import opened Reservations
  import opened LineSearch

  /** The read-only context of one planning call: the map and the two line relations. */
  datatype Network = Network(m: seq<Spirit>, adj: map<int, seq<int>>, reverse: map<int, seq<int>>)

  // ---------------------------------------------------------------- the two line relations

  /** `b` continues `a` without turning straight back. */
  predicate Continues(a: MapPath, b: MapPath) {
    a.id != b.id && a.end == b.start && a.start != b.end
  }

  predicate SamePlace(p: MapPoint, q: MapPoint) {
    p.realX == q.realX && p.realY == q.realY
  }

  function PointOf(m: seq<Spirit>, id: int): Option<MapPoint> {
    match SpiritById(m, id)
    case Some(Point(p)) => Some(p)
    case _ => None
  }

  /** `b` is driven against `a`: it swaps `a`'s stations, or joins the same two places backwards. */
  predicate Opposes(m: seq<Spirit>, a: MapPath, b: MapPath) {
    && a.id != b.id
    && PointOf(m, a.start).Some? && PointOf(m, a.end).Some?
    && PointOf(m, b.start).Some? && PointOf(m, b.end).Some?
    && (|| (a.end == b.start && a.start == b.end)
        || (&& SamePlace(PointOf(m, a.end).value, PointOf(m, b.start).value)
            && SamePlace(PointOf(m, b.end).value, PointOf(m, a.start).value)))
  }

  /** The relations were built from (a map that includes) this map's paths. */
  ghost predicate Loaded(net: Network) {
    && IsMap(net.m)
    && (forall a, b :: a in Paths(net.m) && b in Paths(net.m) ==>
         (b.id in Successors(net.adj, a.id) <==> Continues(a, b)))
    && (forall a, b :: a in Paths(net.m) && b in Paths(net.m) ==>
         (b.id in Successors(net.reverse, a.id) <==> Opposes(net.m, a, b)))
  }

  lemma LoadedIsMap(net: Network)
    requires Loaded(net)
    ensures IsMap(net.m)
  {}

  /** The reverse relation is symmetric. */
  lemma OpposesSymmetric(net: Network, a: MapPath, b: MapPath)
    requires Loaded(net) && a in Paths(net.m) && b in Paths(net.m)
    ensures b.id in Successors(net.reverse, a.id) <==> a.id in Successors(net.reverse, b.id)
  {
    assert Opposes(net.m, a, b) <==> Opposes(net.m, b, a);
  }

  // ---------------------------------------------------------------- the filter

  /** Point types a route may not pass through, except next to its ends. */
  predicate IsWorkPoint(t: PointType) {
    t.Charge? || t.Load? || t.Unload? || t.NoUturn? || t.LoadUnload?
  }

  /** The point types that become passable when adjacent to the start or the end of the route. */
  predicate IsUturnExempt(t: PointType) {
    t.NoUturn? || t.Load? || t.LoadUnload?
  }

  /** The points whose lines skip the work-point test: both ends of the route and the exempt
      points one line away from them. */
  function UturnPoints(m: seq<Spirit>, paths: seq<MapPath>, start: int, end: int): seq<int> {
    if paths == [] then [start, end]
    else
      var before, p := UturnPoints(m, paths[..|paths| - 1], start, end), paths[|paths| - 1];
      if p.start == start then
        match PointById(m, p.end)
        case Some(q) => if IsUturnExempt(q.pointType) then before + [q.id] else before
        case None => before
      else if p.end == end then
        match PointById(m, p.start)
        case Some(q) => if IsUturnExempt(q.pointType) then before + [q.id] else before
        case None => before
      else before
  }

  /** The list names a vehicle other than `agv`, or more than one vehicle. */
  predicate HeldByOther(holders: seq<int>, agv: int) {
    |holders| > 1 || (|holders| == 1 && holders[0] != agv)
  }

  predicate StationFree(occ: Occupancy, station: int, agv: int) {
    Owner(occ, station) == 0 || Owner(occ, station) == agv
  }

  /** No COMMON group of the line or of its end is recorded for another vehicle. */
  predicate GroupsFree(groups: seq<MapGroup>, occ: Occupancy, line: MapPath, agv: int) {
    forall g :: g in groups && (line.id in g.spirits || line.end in g.spirits) ==>
      g.id !in occ.groups || occ.groups[g.id].agv == agv
  }

  predicate ReversesFree(reverses: seq<int>, occ: Occupancy, agv: int) {
    forall r :: r in reverses && r > 0 ==> !HeldByOther(Holders(occ, r), agv)
  }

  /** `pathPassable` with the list of exempt points. */
  predicate Passable(net: Network, occ: Occupancy, agv: int, exempt: seq<int>, line: MapPath) {
    && PointById(net.m, line.end).Some?
    && (line.start in exempt || line.end in exempt || !IsWorkPoint(PointById(net.m, line.end).value.pointType))
    && ReversesFree(Successors(net.reverse, line.id), occ, agv)
    && StationFree(occ, line.end, agv)
    && GroupsFree(Groups(net.m, COMMON_GROUP), occ, line, agv)
  }

  // ---------------------------------------------------------------- routes

  /** One planning question: which lines may be driven, from where, to where. */
  datatype Query = Query(filtered: bool, agv: int, start: int, end: int)

  /** The line may be part of a route: it passes the filter, and it is not a line that leaves the
      goal while another vehicle holds it (those are blackened before the search). */
  predicate Drivable(net: Network, occ: Occupancy, qu: Query, line: MapPath) {
    !qu.filtered || (
      && Passable(net, occ, qu.agv, UturnPoints(net.m, Paths(net.m), qu.start, qu.end), line)
      && !(line.start == qu.end && HeldByOther(Holders(occ, line.id), qu.agv)))
  }

  predicate DrivableId(net: Network, occ: Occupancy, qu: Query, l: int) {
    PathById(net.m, l).Some? && Drivable(net, occ, qu, PathById(net.m, l).value)
  }

  /** A route of the query: from the start station to the end station over drivable lines, each
      listed as a successor of the one before. */
  ghost predicate IsRoute(net: Network, occ: Occupancy, qu: Query, route: seq<int>) {
    && |route| > 0
    && (forall i :: 0 <= i < |route| ==> DrivableId(net, occ, qu, route[i]))
    && PathById(net.m, route[0]).value.start == qu.start
    && PathById(net.m, route[|route| - 1]).value.end == qu.end
    && forall i :: 0 <= i < |route| - 1 ==> route[i + 1] in Successors(net.adj, route[i])
  }

  function LengthOf(m: seq<Spirit>, l: int): int {
    match PathById(m, l)
    case Some(p) => p.length
    case None => 0
  }

  function RouteLength(m: seq<Spirit>, route: seq<int>): int {
    if route == [] then 0
    else RouteLength(m, route[..|route| - 1]) + LengthOf(m, route[|route| - 1])
  }

  /** The answer to a query: a shortest route with its length, or no route and infinity. */
  ghost predicate IsShortest(net: Network, occ: Occupancy, qu: Query, route: seq<int>, distance: int) {
    && (route == [] <==> distance == INFINITY)
    && (route != [] ==> IsRoute(net, occ, qu, route) && distance == RouteLength(net.m, route) && distance < INFINITY)
    && forall w :: IsRoute(net, occ, qu, w) ==> route != [] && distance <= RouteLength(net.m, w)
  }

  // ---------------------------------------------------------------- routes are walks of a graph

  function Ids(paths: seq<MapPath>): seq<int> {
    seq(|paths|, i requires 0 <= i < |paths| => paths[i].id)
  }

  ghost function GraphOf(net: Network, occ: Occupancy, qu: Query): Graph
    requires IsMap(net.m)
  {
    var ids := Ids(Paths(net.m));
    LengthsNatural(net.m);
    var len: map<int, nat> := map l | l in ids :: LengthOf(net.m, l);
    var allowed := set l | l in ids && DrivableId(net, occ, qu, l);
    var sources := set l | l in allowed && PathById(net.m, l).value.start == qu.start;
    Graph(ids, len, net.adj, allowed, sources)
  }

  lemma LengthsNatural(m: seq<Spirit>)
    requires IsMap(m)
    ensures forall l :: LengthOf(m, l) >= 0
  {
    forall l ensures LengthOf(m, l) >= 0 {
      PathByIdFinds(m, l);
    }
  }

  lemma IdsAreLines(m: seq<Spirit>, l: int)
    requires UniqueIds(m)
    ensures l in Ids(Paths(m)) <==> PathById(m, l).Some?
    ensures PathById(m, l).Some? ==> PathById(m, l).value in Paths(m) && PathById(m, l).value.id == l
  {
    PathByIdFinds(m, l);
    var ps := Paths(m);
    if PathById(m, l).Some? {
      var i :| 0 <= i < |ps| && ps[i] == PathById(m, l).value;
      assert Ids(ps)[i] == l;
    }
    if l in Ids(ps) {
      var i :| 0 <= i < |ps| && Ids(ps)[i] == l;
      assert ps[i] in ps;
    }
  }

  /** The total length of the graph is the total length of the map. */
  lemma {:induction false} SumIsTotal(m: seq<Spirit>, paths: seq<MapPath>, len: map<int, nat>)
    requires UniqueIds(m)
    requires forall p :: p in paths ==> p in Paths(m)
    requires forall l :: l in Ids(paths) ==> l in len
    requires forall l :: l in len ==> len[l] == LengthOf(m, l)
    ensures forall k :: 0 <= k < |Ids(paths)| ==> Ids(paths)[k] in len
    ensures SumIn(Ids(paths), len, len.Keys) == TotalLength(paths)
  {
    if paths != [] {
      assert Ids(paths)[1..] == Ids(paths[1..]);
      assert Ids(paths)[0] == paths[0].id;
      SumIsTotal(m, paths[1..], len);
      PathByIdFinds(m, paths[0].id);
    }
  }

  lemma GraphWellFormed(net: Network, occ: Occupancy, qu: Query)
    requires IsMap(net.m)
    ensures WellFormed(GraphOf(net, occ, qu))
  {
    var g := GraphOf(net, occ, qu);
    PathsDistinct(net.m);
    SumIsTotal(net.m, Paths(net.m), g.len);
    forall l | l in g.len ensures l > 0 {
      IdsAreLines(net.m, l);
      var p := PathById(net.m, l).value;
      assert Path(p) in net.m;
    }
  }

  /** Routes are exactly the walks that end at a line into the goal. */
  lemma RoutesAreWalks(net: Network, occ: Occupancy, qu: Query, w: seq<int>)
    requires IsMap(net.m)
    ensures var g := GraphOf(net, occ, qu);
      IsRoute(net, occ, qu, w)
      <==> IsWalk(g, w) && PathById(net.m, w[|w| - 1]).Some? && PathById(net.m, w[|w| - 1]).value.end == qu.end
  {
    var g := GraphOf(net, occ, qu);
    forall l ensures l in g.allowed <==> DrivableId(net, occ, qu, l) {
      IdsAreLines(net.m, l);
    }
    if IsRoute(net, occ, qu, w) {
      forall i | 0 <= i < |w| - 1 ensures Follows(g, w[i], w[i + 1]) {
        assert DrivableId(net, occ, qu, w[i + 1]);
      }
    }
    if IsWalk(g, w) {
      GraphWellFormed(net, occ, qu);
      WalkLines(g, w);
      forall i | 0 <= i < |w| - 1 ensures w[i + 1] in Successors(net.adj, w[i]) {
        assert Follows(g, w[i], w[i + 1]);
      }
    }
  }

  lemma {:induction false} WalkLengthIsRouteLength(net: Network, occ: Occupancy, qu: Query, w: seq<int>)
    requires IsMap(net.m)
    requires forall i :: 0 <= i < |w| ==> w[i] in GraphOf(net, occ, qu).len
    ensures WalkLength(GraphOf(net, occ, qu).len, w) == RouteLength(net.m, w)
  {
    if w != [] {
      WalkLengthIsRouteLength(net, occ, qu, w[..|w| - 1]);
    }
  }

  // ---------------------------------------------------------------- what the planner methods answer

  predicate IsPoint(m: seq<Spirit>, id: int) {
    PointOf(m, id).Some?
  }

  /** A last station that is not known is taken to be the start station, and the other way round. */
  function KnownLast(last: int, start: int): int {
    if last <= 0 then start else last
  }

  function KnownStart(last: int, start: int): int {
    if start <= 0 then KnownLast(last, start) else start
  }

  /** The entry guards of `getPath`. */
  predicate MayPlan(net: Network, occ: Occupancy, agv: int, last: int, start: int, end: int) {
    && (last > 0 || start > 0)
    && end > 0
    && IsPoint(net.m, KnownLast(last, start)) && IsPoint(net.m, KnownStart(last, start)) && IsPoint(net.m, end)
    && StationFree(occ, KnownStart(last, start), agv)
    && StationFree(occ, end, agv)
  }

  /** The paths from one station straight to another, in list order. */
  function Joining(paths: seq<MapPath>, from: int, to: int): (r: seq<MapPath>)
    ensures forall p :: p in r <==> p in paths && p.start == from && p.end == to
  {
    if paths == [] then []
    else
      var rest, last := paths[..|paths| - 1], paths[|paths| - 1];
      assert paths == rest + [last];
      if last.start == from && last.end == to then Joining(rest, from, to) + [last] else Joining(rest, from, to)
  }

  /** The answer when the vehicle already stands at the goal: nothing to drive, or, when it may turn
      around, every line that brought it here, with the length of the last of them. */
  predicate StandsAtGoal(net: Network, last: int, start: int, changeDirect: bool, route: seq<int>, distance: int) {
    var joining := if changeDirect && last != start then Joining(Paths(net.m), last, start) else [];
    && route == Ids(joining)
    && distance == if joining == [] then 0 else joining[|joining| - 1].length
  }

  /** The answer of `getPath` for a vehicle. */
  ghost predicate PathAnswer(net: Network, occ: Occupancy, agv: int, last: int, start: int, end: int,
                             changeDirect: bool, route: seq<int>, distance: int) {
    if !MayPlan(net, occ, agv, last, start, end) then route == [] && distance == INFINITY
    else if KnownStart(last, start) == end then
      StandsAtGoal(net, KnownLast(last, start), end, changeDirect, route, distance)
    else IsShortest(net, occ, Query(true, agv, KnownStart(last, start), end), route, distance)
  }

  /** The answer of the search that ignores reservations. */
  ghost predicate FreeAnswer(net: Network, occ: Occupancy, from: int, to: int, route: seq<int>, distance: int) {
    if from <= 0 || to <= 0 then route == [] && distance == INFINITY
    else if from == to then route == [] && distance == 0
    else if !IsPoint(net.m, from) || !IsPoint(net.m, to) then route == [] && distance == INFINITY
    else IsShortest(net, occ, Query(false, 0, from, to), route, distance)
  }

  /** A query has one shortest distance. */
  lemma ShortestUnique(net: Network, occ: Occupancy, from: int, to: int, r: seq<int>, d: int, r': seq<int>, d': int)
    requires FreeAnswer(net, occ, from, to, r, d) && FreeAnswer(net, occ, from, to, r', d')
    ensures d == d'
  {
    hide IsRoute, RouteLength;
  }

  /** A halt point that is free for the vehicle. */
  predicate HaltCandidate(net: Network, occ: Occupancy, agv: int, p: MapPoint) {
    Point(p) in net.m && p.pointType.Halt? && StationFree(occ, p.id, agv)
  }

  /** The halt point `p` is a candidate at distance `d` from the goal. */
  ghost predicate HaltAt(net: Network, occ: Occupancy, agv: int, aim: int, p: MapPoint, route: seq<int>, d: int) {
    HaltCandidate(net, occ, agv, p) && FreeAnswer(net, occ, p.id, aim, route, d)
  }

  ghost predicate NoNearerHalt(net: Network, occ: Occupancy, agv: int, aim: int, d: int) {
    forall p, route, d' :: HaltAt(net, occ, agv, aim, p, route, d') ==> d <= d'
  }

  /** The element at place `i` is a candidate that can reach the goal; no candidate is nearer to it,
      and every candidate before it in the list is farther. */
  ghost predicate FirstHalt(net: Network, occ: Occupancy, agv: int, aim: int, i: nat, route: seq<int>, d: int)
    requires i < |net.m|
  {
    && net.m[i].Point? && HaltAt(net, occ, agv, aim, net.m[i].point, route, d) && d < INFINITY
    && NoNearerHalt(net, occ, agv, aim, d)
    && forall k :: 0 <= k < i ==> Farther(net, occ, agv, aim, net.m[k], d)
  }

  /** As a candidate, the element is farther from the goal than `d`. */
  ghost predicate Farther(net: Network, occ: Occupancy, agv: int, aim: int, s: Spirit, d: int) {
    s.Point? ==> forall route, d' :: HaltAt(net, occ, agv, aim, s.point, route, d') ==> d < d'
  }

  /** The station is the first in the list of the nearest candidates. */
  ghost predicate NearestHalt(net: Network, occ: Occupancy, agv: int, aim: int, halt: int) {
    exists i, route, d :: 0 <= i < |net.m| && net.m[i].Id() == halt && FirstHalt(net, occ, agv, aim, i, route, d)
  }

  /** Two vehicles' nearest halt points, when the first one's is free for the second: they are the
      same exactly when the second one's is free for the first, and otherwise the second vehicle
      already owns its own. */
  lemma NearestHaltsDiffer(net: Network, occ: Occupancy, aim: int, u: int, target: int, v: int, halt: int)
    requires NearestHalt(net, occ, u, aim, target) && StationFree(occ, target, v)
    requires NearestHalt(net, occ, v, aim, halt)
    ensures halt == target <==> StationFree(occ, halt, u)
    ensures halt != target ==> Owner(occ, halt) == v
  {
    hide FreeAnswer;
    var i, r, d :| 0 <= i < |net.m| && net.m[i].Id() == target && FirstHalt(net, occ, u, aim, i, r, d);
    var j, r', d' :| 0 <= j < |net.m| && net.m[j].Id() == halt && FirstHalt(net, occ, v, aim, j, r', d');
    assert HaltAt(net, occ, v, aim, net.m[i].point, r, d);
    if StationFree(occ, halt, u) {
      assert HaltAt(net, occ, u, aim, net.m[j].point, r', d');
    }
  }

  /** The other vehicle's halt point makes the search find one. */
  lemma SomeHalt(net: Network, occ: Occupancy, aim: int, u: int, target: int, v: int)
    requires NearestHalt(net, occ, u, aim, target) && StationFree(occ, target, v)
    ensures !NoNearerHalt(net, occ, v, aim, INFINITY)
  {
    hide FreeAnswer;
    var i, r, d :| 0 <= i < |net.m| && net.m[i].Id() == target && FirstHalt(net, occ, u, aim, i, r, d);
    assert HaltAt(net, occ, v, aim, net.m[i].point, r, d);
  }
}
