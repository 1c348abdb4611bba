/** Runs the code can make in which a property that one would expect fails.  The exact conditions are
    proved where the operations are. */
module Findings {
  import opened Wrappers
  import opened Maps
  import opened Reservations
  import opened LineSearch
  import opened Routes
  import opened RoadRules
  import opened ShortestRoutes
  import opened Vehicles
  import Blocks
  import Tasks
  import Traffic

  // ---------------------------------------------------------------- a group record rewritten in passing

  function Stop(id: int): MapPoint {
    MapPoint(id, Report, id, 0, false)
  }

  /** Lines 1 -> 2 -> 3 and 8 -> 9, and a COMMON group of the stations 2 and 9. */
  const YARD: seq<Spirit> := [
    Point(Stop(1)), Point(Stop(2)), Point(Stop(3)), Point(Stop(8)), Point(Stop(9)),
    Path(MapPath(11, 1, 2, 1, 1.0)), Path(MapPath(12, 2, 3, 1, 1.0)), Path(MapPath(14, 8, 9, 1, 1.0)),
    Group(MapGroup(20, COMMON_GROUP, [2, 9]))]

  const NET := Network(YARD, map[11 := [12]], map[])

  const EMPTY := Occupancy(map[], map[], map[])

  lemma NextPath(m: seq<Spirit>, x: Spirit)
    ensures Paths(m + [x]) == if x.Path? then Paths(m) + [x.path] else Paths(m)
  {
    assert (m + [x])[..|m|] == m;
  }

  lemma {:induction false} NoPaths(m: seq<Spirit>)
    requires forall x :: x in m ==> !x.Path?
    ensures Paths(m) == []
  {
    if m != [] {
      NoPaths(m[..|m| - 1]);
    }
  }

  lemma ThreePaths(front: seq<Spirit>, a: MapPath, b: MapPath, c: MapPath, last: Spirit, m: seq<Spirit>)
    requires (forall x :: x in front ==> !x.Path?) && !last.Path?
    requires m == front + [Path(a)] + [Path(b)] + [Path(c)] + [last]
    ensures Paths(m) == [a, b, c]
  {
    hide Paths;
    NoPaths(front);
    NextPath(front, Path(a));
    NextPath(front + [Path(a)], Path(b));
    NextPath(front + [Path(a)] + [Path(b)], Path(c));
    NextPath(front + [Path(a)] + [Path(b)] + [Path(c)], last);
  }

  lemma YardPaths()
    ensures Paths(YARD) == [YARD[5].path, YARD[6].path, YARD[7].path]
  {
    hide Paths;
    ThreePaths(YARD[..5], YARD[5].path, YARD[6].path, YARD[7].path, YARD[8], YARD);
  }

  lemma YardIsMap()
    ensures IsMap(YARD)
  {
    YardPaths();
    hide Paths;
    var m := YARD;
    assert UniqueIds(m);
    var a, b, c := m[5].path, m[6].path, m[7].path;
    assert [a, b, c][1..] == [b, c] && [b, c][1..] == [c] && [c][1..] == [];
    assert TotalLength([c]) == 1 + TotalLength([]);
    assert TotalLength([b, c]) == 1 + TotalLength([c]);
    assert TotalLength([a, b, c]) == 1 + TotalLength([b, c]);
  }

  lemma YardLines()
    ensures forall p :: p in Paths(YARD) <==> p == YARD[5].path || p == YARD[6].path || p == YARD[7].path
    ensures PathById(YARD, 11) == Some(YARD[5].path) && PathById(YARD, 12) == Some(YARD[6].path)
    ensures PathById(YARD, 14) == Some(YARD[7].path)
    ensures forall x :: x != 11 && x != 12 && x != 14 ==> PathById(YARD, x) == None
  {
    YardIsMap();
    YardPaths();
    hide IsMap, PathById, Paths;
    var a, b, c := YARD[5].path, YARD[6].path, YARD[7].path;
    LinesFound(YARD, a, b, c);
  }

  lemma LinesFound(m: seq<Spirit>, a: MapPath, b: MapPath, c: MapPath)
    requires IsMap(m) && Paths(m) == [a, b, c]
    ensures forall p :: p in Paths(m) <==> p == a || p == b || p == c
    ensures PathById(m, a.id) == Some(a) && PathById(m, b.id) == Some(b) && PathById(m, c.id) == Some(c)
    ensures forall x :: x != a.id && x != b.id && x != c.id ==> PathById(m, x) == None
  {
    assert UniqueIds(m);
    hide Paths, PathById, UniqueIds;
    assert forall p :: p in [a, b, c] <==> p == a || p == b || p == c;
    PathByIdFinds(m, a.id);
    PathByIdFinds(m, b.id);
    PathByIdFinds(m, c.id);
    forall x | x != a.id && x != b.id && x != c.id ensures PathById(m, x) == None {
      PathByIdFinds(m, x);
    }
  }

  lemma YardPoints()
    ensures forall x :: x in {1, 2, 3, 8, 9} ==> PointOf(YARD, x) == Some(Stop(x)) && PointById(YARD, x) == Some(Stop(x))
  {
    YardIsMap();
    hide IsMap, PointOf, PointById;
    forall x | x in {1, 2, 3, 8, 9} ensures PointOf(YARD, x) == Some(Stop(x)) && PointById(YARD, x) == Some(Stop(x)) {
      YardPoint(x, if x < 8 then x - 1 else x - 5);
    }
  }

  lemma YardPoint(x: int, i: nat)
    requires IsMap(YARD) && i < |YARD| && YARD[i] == Point(Stop(x))
    ensures PointOf(YARD, x) == Some(Stop(x)) && PointById(YARD, x) == Some(Stop(x))
  {
    hide PointById;
    SpiritByIdAt(YARD, i);
    PointByIdFinds(YARD, x);
  }

  lemma YardGroups()
    ensures forall x :: x != 2 && x != 9 ==> CommonGroups(YARD, x) == []
    ensures CommonGroups(YARD, 2) != [] && CommonGroups(YARD, 9) != []
    ensures forall x, g :: g in CommonGroups(YARD, x) ==> g == 20
  {
    var m := YARD;
    var g := m[8].group;
    assert Group(g) in m;
    assert forall h :: h in Groups(m, COMMON_GROUP) <==> h == g;
    forall x ensures forall i :: i in CommonGroups(m, x) <==> i == 20 && x in g.spirits {}
    forall x | x != 2 && x != 9 ensures CommonGroups(m, x) == [] {
      NoMembers(CommonGroups(m, x));
    }
    assert 20 in CommonGroups(m, 2) && 20 in CommonGroups(m, 9);
  }

  lemma NoMembers(s: seq<int>)
    ensures (forall i :: i !in s) ==> s == []
  {
    if s != [] {
      var x := s[0];
      assert x in s;
    }
  }

  lemma YardIsLoaded()
    ensures Loaded(NET)
  {
    YardIsMap();
    YardLines();
    YardPoints();
    hide IsMap, PointOf, Paths, PathById, Continues, Opposes, Successors;
    forall a, b | a in Paths(YARD) && b in Paths(YARD)
      ensures b.id in Successors(NET.adj, a.id) <==> Continues(a, b)
      ensures b.id in Successors(NET.reverse, a.id) <==> Opposes(YARD, a, b)
    {
      YardRelations(a, b);
    }
  }

  lemma YardRelations(a: MapPath, b: MapPath)
    requires a == YARD[5].path || a == YARD[6].path || a == YARD[7].path
    requires b == YARD[5].path || b == YARD[6].path || b == YARD[7].path
    requires forall x :: x in {1, 2, 3, 8, 9} ==> PointOf(YARD, x) == Some(Stop(x))
    ensures b.id in Successors(NET.adj, a.id) <==> Continues(a, b)
    ensures b.id in Successors(NET.reverse, a.id) <==> Opposes(YARD, a, b)
  {
    hide PointOf;
  }

  lemma {:induction false} LengthAtLeast(m: seq<Spirit>, w: seq<int>)
    requires forall i :: 0 <= i < |w| ==> LengthOf(m, w[i]) >= 1
    ensures RouteLength(m, w) >= |w|
  {
    if w != [] {
      LengthAtLeast(m, w[..|w| - 1]);
    }
  }

  /** A line of the yard may be driven while nobody else holds it or its end and no group is recorded. */
  lemma MayDrive(occ: Occupancy, qu: Query, l: int)
    requires l in {11, 12, 14} && occ.groups == map[] && Holders(occ, l) == []
    requires PathById(YARD, l).Some? ==> StationFree(occ, PathById(YARD, l).value.end, qu.agv)
    ensures DrivableId(NET, occ, qu, l)
  {
    YardLines();
    YardPoints();
    hide PathById, PointById, PointOf, UturnPoints, Paths, Groups, Holders, StationFree;
    assert Successors(NET.reverse, l) == [];
  }

  lemma FirstRoute(qu: Query)
    requires qu == Query(true, 1, 1, 3)
    ensures IsRoute(NET, EMPTY, qu, [11, 12])
  {
    YardLines();
    MayDrive(EMPTY, qu, 11);
    MayDrive(EMPTY, qu, 12);
    hide PathById, DrivableId, Paths, IsRoute;
    TwoLines(NET, EMPTY, qu, 11, 12);
  }

  lemma TwoLines(net: Network, occ: Occupancy, qu: Query, a: int, b: int)
    requires DrivableId(net, occ, qu, a) && DrivableId(net, occ, qu, b) && b in Successors(net.adj, a)
    requires PathById(net.m, a).value.start == qu.start && PathById(net.m, b).value.end == qu.end
    ensures IsRoute(net, occ, qu, [a, b])
  {
    hide DrivableId, Successors, PathById;
  }

  lemma FirstLength()
    ensures RouteLength(YARD, [11, 12]) == 2
  {
    YardLines();
    hide PathById, Paths;
    assert [11, 12][..1] == [11] && [11][..0] == [];
    assert RouteLength(YARD, [11]) == 1;
  }

  lemma FirstPlan()
    ensures PathAnswer(NET, EMPTY, 1, 1, 1, 3, false, [11, 12], 2)
  {
    YardPoints();
    hide IsRoute, RouteLength, PointOf, PathById, Paths;
    var qu := Query(true, 1, 1, 3);
    FirstRoute(qu);
    FirstLength();
    forall w | IsRoute(NET, EMPTY, qu, w) ensures RouteLength(YARD, w) >= 2 {
      LinesAreKnown(EMPTY, qu, w);
      LengthAtLeast(YARD, w);
    }
  }

  lemma LinesAreKnown(occ: Occupancy, qu: Query, w: seq<int>)
    requires IsRoute(NET, occ, qu, w)
    ensures forall i :: 0 <= i < |w| ==> w[i] in {11, 12, 14} && LengthOf(YARD, w[i]) == 1
    ensures |w| >= 1 && (qu.start == 1 && qu.end == 3 ==> |w| >= 2)
  {
    YardLines();
    hide PathById, Drivable, Paths;
    forall i | 0 <= i < |w| ensures w[i] in {11, 12, 14} {
      assert DrivableId(NET, occ, qu, w[i]);
    }
  }

  /** The tables after the first dispatch. */
  lemma FirstReserved(occ: Occupancy)
    requires occ == Reserve(YARD, EMPTY, 1, 3, [11, 12])
    ensures occ.groups == map[] && Holders(occ, 14) == [] && Owner(occ, 8) == 0 && Owner(occ, 9) == 0
  {
    YardGroups();
    hide CommonGroups;
    var route := [11, 12];
    assert route[..1] == [11] && route[..1][..0] == [];
    var a := AddStation(YARD, EMPTY, 3, 1);
    assert AddLines(YARD, a, [], 1) == a;
    assert AddLines(YARD, a, [11], 1) == AddLine(YARD, a, 11, 1);
    assert occ == AddLine(YARD, AddLine(YARD, a, 11, 1), 12, 1);
  }

  lemma SecondRoute(occ: Occupancy, qu: Query)
    requires occ.groups == map[] && Holders(occ, 14) == [] && Owner(occ, 9) == 0 && qu == Query(true, 2, 8, 9)
    ensures IsRoute(NET, occ, qu, [14])
  {
    YardLines();
    hide PathById, DrivableId, Paths, IsRoute, Holders, Owner;
    MayDrive(occ, qu, 14);
    OneLine(NET, occ, qu, 14);
  }

  lemma OneLine(net: Network, occ: Occupancy, qu: Query, a: int)
    requires DrivableId(net, occ, qu, a)
    requires PathById(net.m, a).value.start == qu.start && PathById(net.m, a).value.end == qu.end
    ensures IsRoute(net, occ, qu, [a])
  {
    hide DrivableId, PathById;
  }

  lemma SecondLength()
    ensures RouteLength(YARD, [14]) == 1
  {
    YardLines();
    hide PathById, Paths;
    assert [14][..0] == [];
  }

  lemma SecondPlan(occ: Occupancy)
    requires occ == Reserve(YARD, EMPTY, 1, 3, [11, 12])
    ensures PathAnswer(NET, occ, 2, 8, 8, 9, false, [14], 1)
  {
    YardPoints();
    hide IsRoute, RouteLength, PointOf, PathById, Paths, Reserve, Holders;
    var qu := Query(true, 2, 8, 9);
    FirstReserved(occ);
    SecondRoute(occ, qu);
    SecondLength();
    forall w | IsRoute(NET, occ, qu, w) ensures RouteLength(YARD, w) >= 1 {
      LinesAreKnown(occ, qu, w);
      LengthAtLeast(YARD, w);
    }
  }

  /** The tables after the second dispatch. */
  lemma SecondReserved(occ: Occupancy, occ': Occupancy)
    requires occ.groups == map[] && occ' == Reserve(YARD, occ, 2, 9, [14])
    ensures 20 in occ'.groups && occ'.groups[20].agv == 2
  {
    YardGroups();
    var ids := CommonGroups(YARD, 9);
    assert ids[0] in ids;
    RecordAt(occ.groups, ids, 9, 2);
    hide CommonGroups;
    assert [14][..0] == [];
    var a := AddStation(YARD, occ, 9, 2);
    assert AddLines(YARD, a, [], 2) == a;
    assert occ' == AddLine(YARD, a, 14, 2);
  }

  /** Vehicle 1 is sent over 2 to 3 and vehicle 2 to 9, and every step is one the system makes; the group
      records are right.  Then vehicle 1 arrives at 3.  It gives back station 2, which it never
      reserved, and that rewrites the record of the group to vehicle 1 while vehicle 2 holds 9. */
  lemma PassingRewritesGroup() returns (states: seq<Traffic.State>, steps: seq<Traffic.Step>)
    ensures Loaded(NET) && Traffic.IsRun(NET, states, steps)
    ensures states[0] == Traffic.State(EMPTY, None)
    ensures var occ := states[|steps|].occ;
      && Traffic.GroupsRight(YARD, occ)
      && !Traffic.GroupsSound(YARD, Arrived(YARD, occ, 1, 0, [11, 12], 3))
  {
    var occ1 := Reserve(YARD, EMPTY, 1, 3, [11, 12]);
    var occ2 := Reserve(YARD, occ1, 2, 9, [14]);
    states, steps := TwoDispatches(occ1, occ2);
    YardIsLoaded();
    YardIsMap();
    FirstReserved(occ1);
    SecondReserved(occ1, occ2);
    hide IsMap, Loaded, Reserve, Arrived, Traffic.GroupsSound, Traffic.WellTyped, Traffic.Next;
    Traffic.GroupsAlwaysSound(NET, states, steps);
    assert Traffic.GroupInv(NET.m, states[|steps|]);
    StationTwoForeign(occ2);
  }

  lemma TwoDispatches(occ1: Occupancy, occ2: Occupancy) returns (states: seq<Traffic.State>, steps: seq<Traffic.Step>)
    requires occ1 == Reserve(YARD, EMPTY, 1, 3, [11, 12]) && occ2 == Reserve(YARD, occ1, 2, 9, [14])
    ensures Traffic.IsRun(NET, states, steps) && |steps| == 4
    ensures states[0] == Traffic.State(EMPTY, None) && states[4] == Traffic.State(occ2, None)
    ensures forall i :: 0 <= i < 4 ==> steps[i].PlanRoute? || steps[i].Commit?
  {
    hide *;
    FirstPlan();
    SecondPlan(occ1);
    var p, q := Traffic.Plan(1, 3, [11, 12]), Traffic.Plan(2, 9, [14]);
    states := [Traffic.State(EMPTY, None), Traffic.State(EMPTY, Some(p)), Traffic.State(occ1, None),
               Traffic.State(occ1, Some(q)), Traffic.State(occ2, None)];
    steps := [Traffic.PlanRoute(1, 1, 1, 3, [11, 12], 2), Traffic.Commit,
              Traffic.PlanRoute(2, 8, 8, 9, [14], 1), Traffic.Commit];
    PlanStep(EMPTY, 1, 1, 1, 3, [11, 12], 2);
    CommitStep(EMPTY, p, occ1);
    PlanStep(occ1, 2, 8, 8, 9, [14], 1);
    CommitStep(occ1, q, occ2);
    FourSteps(states, steps);
  }

  lemma FourSteps(states: seq<Traffic.State>, steps: seq<Traffic.Step>)
    requires |states| == 5 && |steps| == 4
    requires Traffic.Next(NET, states[0], steps[0], states[1]) && Traffic.Next(NET, states[1], steps[1], states[2])
    requires Traffic.Next(NET, states[2], steps[2], states[3]) && Traffic.Next(NET, states[3], steps[3], states[4])
    ensures Traffic.IsRun(NET, states, steps)
  {
    hide Traffic.Next;
    forall i | 0 <= i < 4 ensures Traffic.Next(NET, states[i], steps[i], states[i + 1]) {
      assert i == 0 || i == 1 || i == 2 || i == 3;
    }
  }

  lemma PlanStep(occ: Occupancy, agv: int, last: int, start: int, goal: int, route: seq<int>, d: int)
    requires agv > 0 && route != [] && PathAnswer(NET, occ, agv, last, start, goal, false, route, d)
    ensures Traffic.Next(NET, Traffic.State(occ, None), Traffic.PlanRoute(agv, last, start, goal, route, d),
                         Traffic.State(occ, Some(Traffic.Plan(agv, goal, route))))
  {
    hide PathAnswer;
  }

  lemma CommitStep(occ: Occupancy, p: Traffic.Plan, occ': Occupancy)
    requires occ' == Reserve(YARD, occ, p.agv, p.goal, p.route)
    ensures Traffic.Next(NET, Traffic.State(occ, Some(p)), Traffic.Commit, Traffic.State(occ', None))
  {
    hide Reserve;
  }

  lemma StationTwoForeign(occ: Occupancy)
    requires IsMap(YARD) && Traffic.GroupsRight(YARD, occ) && 20 in occ.groups && occ.groups[20].agv == 2
    ensures !Traffic.GroupsSound(YARD, Arrived(YARD, occ, 1, 0, [11, 12], 3))
  {
    YardLines();
    YardPoints();
    YardGroups();
    hide PathById, PointOf, Traffic.GroupsSound, Traffic.WellTyped, Arrived, IsMap, CommonGroups, Paths;
    var lines := [11, 12];
    var paths := KnownPaths(YARD, lines);
    assert paths == [YARD[5].path, YARD[6].path];
    assert LastInto(paths, 3) == 1;
    assert 2 in GivenAtArrival(YARD, 0, lines, 3);
    ArrivalSoundIff(YARD, occ, 1, 0, lines, 3);
    var ids := CommonGroups(YARD, 2);
    assert ids[0] in ids;
    assert ids[0] == 20;
    assert !Traffic.GroupsOpenFor(YARD, occ, 2, 1);
  }

  // ---------------------------------------------------------------- a detour that reserves elsewhere

  /** Two halt points, and a line from the second to the first. */
  const HALTS: seq<Spirit> := [
    Point(MapPoint(1, Halt, 1, 0, false)), Point(MapPoint(2, Halt, 2, 0, false)), Path(MapPath(21, 2, 1, 1, 1.0))]

  const HNET := Network(HALTS, map[], map[])

  /** Vehicle 2 owns the first halt point. */
  const HOCC := Occupancy(map[1 := 2], map[], map[])

  lemma HaltLine()
    ensures UniqueIds(HALTS) && PathById(HALTS, 21) == Some(MapPath(21, 2, 1, 1, 1.0))
    ensures forall x :: x != 21 ==> PathById(HALTS, x) == None
    ensures IsPoint(HALTS, 1) && IsPoint(HALTS, 2)
  {
    var m := HALTS;
    forall x ensures PathById(m, x).Some? ==> PathById(m, x).value in Paths(m) && PathById(m, x).value.id == x
      ensures forall p :: p in Paths(m) && p.id == x ==> PathById(m, x) == Some(p)
    {
      PathByIdFinds(m, x);
    }
    assert m[2] in m;
    SpiritByIdAt(m, 0);
    SpiritByIdAt(m, 1);
  }

  lemma SecondReachesFirst()
    ensures FreeAnswer(HNET, HOCC, 2, 1, [21], 1)
  {
    HaltLine();
    hide PathById, IsPoint;
    var qu := Query(false, 0, 2, 1);
    assert [21][..0] == [] && RouteLength(HALTS, [21]) == 1;
    OneLine(HNET, HOCC, qu, 21);
    forall w | IsRoute(HNET, HOCC, qu, w) ensures RouteLength(HALTS, w) >= 1 {
      OnlyHaltLine(qu, w);
      LengthAtLeast(HALTS, w);
    }
  }

  lemma OnlyHaltLine(qu: Query, w: seq<int>)
    requires IsRoute(HNET, HOCC, qu, w)
    ensures |w| >= 1 && forall i :: 0 <= i < |w| ==> LengthOf(HALTS, w[i]) == 1
  {
    HaltLine();
    hide PathById, Drivable;
    forall i | 0 <= i < |w| ensures LengthOf(HALTS, w[i]) == 1 {
      assert DrivableId(HNET, HOCC, qu, w[i]);
    }
  }

  /** On the way to station 1 the nearest halt point of vehicle 1 is 2, because vehicle 2 owns 1; that of
      vehicle 2 is 1, its own.  When vehicle 2 is between stations and comes behind vehicle 1, it is
      planned to 2 and reserves 1. */
  lemma DetourReservesElsewhere()
    ensures NearestHalt(HNET, HOCC, 1, 1, 2) && StationFree(HOCC, 2, 2)
    ensures NearestHalt(HNET, HOCC, 2, 1, 1)
  {
    SecondReachesFirst();
    HaltDistances();
    hide FreeAnswer;
    assert FirstHalt(HNET, HOCC, 1, 1, 1, [21], 1);
    assert FirstHalt(HNET, HOCC, 2, 1, 0, [], 0);
  }

  lemma HaltDistances()
    ensures FreeAnswer(HNET, HOCC, 1, 1, [], 0)
    ensures forall r, d :: FreeAnswer(HNET, HOCC, 1, 1, r, d) ==> d == 0
    ensures forall r, d :: FreeAnswer(HNET, HOCC, 2, 1, r, d) ==> d == 1
  {
    hide IsShortest;
    SecondReachesFirst();
    forall r, d | FreeAnswer(HNET, HOCC, 2, 1, r, d) ensures d == 1 {
      ShortestUnique(HNET, HOCC, 2, 1, [21], 1, r, d);
    }
  }

  // ---------------------------------------------------------------- a block that is not looked at

  /** Line 33 from 1 to 2, and two lines from 2 to 3: the long one first, and the short one, which is in a
      block. */
  const FORK: seq<Spirit> := [
    Point(Stop(1)), Point(Stop(2)), Point(Stop(3)),
    Path(MapPath(31, 2, 3, 5, 1.0)), Path(MapPath(32, 2, 3, 1, 1.0)), Path(MapPath(33, 1, 2, 1, 1.0)),
    Block(MapBlock(40, [32]))]

  const FNET := Network(FORK, map[33 := [31, 32]], map[])

  /** Vehicle 9 is on the short line. */
  const ONSHORT: seq<Blocks.BBlock> := [Blocks.BBlock(40, [Blocks.AgvOccuSpirits(9, [32])])]

  lemma ForkPaths()
    ensures Paths(FORK) == [FORK[3].path, FORK[4].path, FORK[5].path]
  {
    hide Paths;
    ThreePaths(FORK[..3], FORK[3].path, FORK[4].path, FORK[5].path, FORK[6], FORK);
  }

  lemma ForkIsMap()
    ensures IsMap(FORK)
  {
    ForkPaths();
    hide Paths;
    var m := FORK;
    assert UniqueIds(m);
    var a, b, c := m[3].path, m[4].path, m[5].path;
    assert [a, b, c][1..] == [b, c] && [b, c][1..] == [c] && [c][1..] == [];
    assert TotalLength([c]) == 1 + TotalLength([]);
    assert TotalLength([b, c]) == 1 + TotalLength([c]);
    assert TotalLength([a, b, c]) == 5 + TotalLength([b, c]);
  }

  lemma ForkLines()
    ensures forall p :: p in Paths(FORK) <==> p == FORK[3].path || p == FORK[4].path || p == FORK[5].path
    ensures forall p :: Path(p) in FORK <==> p in Paths(FORK)
    ensures PathById(FORK, 32) == Some(FORK[4].path) && PathById(FORK, 33) == Some(FORK[5].path)
  {
    ForkIsMap();
    ForkPaths();
    hide IsMap, PathById, Paths;
    LinesFound(FORK, FORK[3].path, FORK[4].path, FORK[5].path);
  }

  lemma ForkPoints()
    ensures forall x :: x in {1, 2, 3} ==> PointOf(FORK, x) == Some(Stop(x))
  {
    ForkIsMap();
    forall x | x in {1, 2, 3} ensures PointOf(FORK, x) == Some(Stop(x)) {
      assert FORK[x - 1] == Point(Stop(x));
      SpiritByIdAt(FORK, x - 1);
    }
  }

  lemma ForkIsLoaded()
    ensures Loaded(FNET)
  {
    ForkIsMap();
    ForkLines();
    ForkPoints();
    hide IsMap, PointOf, Paths, PathById, Continues, Opposes, Successors;
    forall a, b | a in Paths(FORK) && b in Paths(FORK)
      ensures b.id in Successors(FNET.adj, a.id) <==> Continues(a, b)
      ensures b.id in Successors(FNET.reverse, a.id) <==> Opposes(FORK, a, b)
    {
      ForkRelations(a, b);
    }
  }

  lemma ForkRelations(a: MapPath, b: MapPath)
    requires a == FORK[3].path || a == FORK[4].path || a == FORK[5].path
    requires b == FORK[3].path || b == FORK[4].path || b == FORK[5].path
    requires forall x :: x in {1, 2, 3} ==> PointOf(FORK, x) == Some(Stop(x))
    ensures b.id in Successors(FNET.adj, a.id) <==> Continues(a, b)
    ensures b.id in Successors(FNET.reverse, a.id) <==> Opposes(FORK, a, b)
  {
    hide PointOf;
  }

  /** Nothing is reserved, so every line of the fork is open. */
  lemma ForkIsOpen(p: MapPath)
    requires Path(p) in FORK
    ensures OpenLine(FORK, EMPTY, 1, 1, 3, p)
  {
    hide FaceToFace, Exempt;
    assert FORK[0] in FORK && FORK[1] in FORK && FORK[2] in FORK;
    assert EndAllowed(FORK, 1, 3, p);
    assert forall g :: Group(g) !in FORK;
  }

  lemma ShortTrip()
    ensures Trip(FORK, 1, 3, [FORK[5].path, FORK[4].path]) && TotalLength([FORK[5].path, FORK[4].path]) == 2
  {
    var a, b := FORK[5].path, FORK[4].path;
    assert FORK[5] in FORK && FORK[4] in FORK;
    assert [a, b][1..] == [b] && [b][1..] == [];
    assert TotalLength([b]) == 1 + TotalLength([]);
    assert TotalLength([a, b]) == 1 + TotalLength([b]);
  }

  lemma {:induction false} TripAtLeast(lines: seq<MapPath>)
    requires forall i :: 0 <= i < |lines| ==> Path(lines[i]) in FORK
    ensures TotalLength(lines) >= |lines|
  {
    if lines != [] {
      TripAtLeast(lines[1..]);
    }
  }

  lemma ForkRoute(qu: Query)
    requires qu == Query(true, 1, 1, 3)
    ensures IsRoute(FNET, EMPTY, qu, [33, 32]) && RouteLength(FORK, [33, 32]) == 2
  {
    ForkIsLoaded();
    ForkLines();
    ShortTrip();
    hide Loaded, Paths, Trip, OpenLine, Drivable, IsRoute, RouteLength, TotalLength, PathById;
    var lines := [FORK[5].path, FORK[4].path];
    assert Ids(lines) == [33, 32];
    forall i | 0 <= i < 2 ensures Drivable(FNET, EMPTY, qu, lines[i]) {
      assert lines[i] == FORK[5].path || lines[i] == FORK[4].path;
      ForkIsOpen(lines[i]);
      DrivableIsOpen(FNET, EMPTY, 1, 1, 3, lines[i]);
    }
    TripIsRoute(FNET, EMPTY, qu, lines);
  }

  lemma ForkNeedsTwo(qu: Query, w: seq<int>)
    requires qu == Query(true, 1, 1, 3) && IsRoute(FNET, EMPTY, qu, w)
    ensures RouteLength(FORK, w) >= 2
  {
    ForkIsLoaded();
    hide Loaded, Trip, Drivable, IsRoute, RouteLength, TotalLength, Paths;
    var trip := RouteIsTrip(FNET, EMPTY, qu, w);
    TwoLinesNeeded(trip);
  }

  lemma ForkPlan()
    ensures IsShortest(FNET, EMPTY, Query(true, 1, 1, 3), [33, 32], 2)
    ensures PathAnswer(FNET, EMPTY, 1, 1, 1, 3, false, [33, 32], 2)
  {
    ForkPoints();
    hide IsRoute, RouteLength, PointOf;
    var qu := Query(true, 1, 1, 3);
    ForkRoute(qu);
    forall w | IsRoute(FNET, EMPTY, qu, w) ensures RouteLength(FORK, w) >= 2 {
      ForkNeedsTwo(qu, w);
    }
  }

  lemma TwoLinesNeeded(lines: seq<MapPath>)
    requires Trip(FORK, 1, 3, lines)
    ensures TotalLength(lines) >= 2
  {
    TripAtLeast(lines);
    hide TotalLength, Joined;
    assert Path(lines[0]) in FORK;
  }

  /** Vehicle 1 is sent from 1 over 2 to 3 on the shortest route, which takes the short line, and the block of
      that line is occupied by vehicle 9.  At 2 vehicle 1 looks at the long line, which comes first in the map,
      and sees nothing in its way. */
  lemma LooksAtOtherLine()
    ensures PathAnswer(FNET, EMPTY, 1, 1, 1, 3, false, [33, 32], 2)
    ensures PathById(FORK, 33).value.end == 2 && PathById(FORK, 32).value.end == 3
    ensures Occupied(FORK, ONSHORT, 32, 1) && !BlockedAhead(FORK, ONSHORT, [2, 3], 2, 1)
  {
    ForkPlan();
    ForkLines();
    ShortIsTaken();
    LongIsFirst();
    LongIsFree();
    hide PathAnswer, PathById, Paths, Occupied, FirstBetween, BlockedAhead;
    assert [2, 3][..0] == [];
    NothingAhead(FORK, ONSHORT, [2, 3], 2, 0, 3, 1);
  }

  lemma ShortIsTaken()
    ensures Occupied(FORK, ONSHORT, 32, 1)
  {
    var entries := ONSHORT[0].agvSpirits;
    assert entries[0].agv == 9 && entries[0].spirits[0] == 32;
    assert Blocks.VehicleFact(entries, 9, 32);
    assert Blocks.HasFact(ONSHORT, 40, 9, 32);
    assert FORK[6] in FORK;
    assert 32 in FORK[6].block.spirits;
  }

  lemma LongIsFirst()
    ensures FirstBetween(FORK, 2, 3, 3) && FORK[3].path.id == 31
  {}

  lemma LongIsFree()
    ensures !Occupied(FORK, ONSHORT, 31, 1)
  {
    forall b | Block(b) in FORK ensures 31 !in b.spirits {
      assert Block(b) == FORK[6];
    }
  }

  lemma NothingAhead(m: seq<Spirit>, blocks: seq<Blocks.BBlock>, stations: seq<int>, now: int, i: nat, k: nat, agv: int)
    requires i < |stations| - 1 && stations[i] == now && now !in stations[..i] && k < |m|
    requires FirstBetween(m, now, stations[i + 1], k) && !Occupied(m, blocks, m[k].path.id, agv)
    ensures !BlockedAhead(m, blocks, stations, now, agv)
  {
    OneBetween(m, now, stations[i + 1], k);
    OnlyFirst(stations, now, i);
    hide FirstBetween, Occupied;
  }

  // ---------------------------------------------------------------- vehicles set free while they serve

  /** A task with one node, or none, for the vehicle. */
  function Job(nodes: seq<int>, agv: int): Tasks.Task {
    Tasks.Task(5, nodes, agv, 0, 1, false, [], 1, false)
  }

  /** Vehicle 7 waits at station 3. */
  const IDLE := Tasks.Vehicle(true, 0, 0, 3, 0)
  const BUSY := IDLE.(idle := false, task := 1)

  const START := Tasks.State(map[], map[7 := IDLE], map[], [], [], [], {}, map[])

  /** Task 1 was submitted and started on vehicle 7. */
  const SERVING := Tasks.State(map[1 := Job([4], 7).(path := [11])], map[7 := BUSY], map[5 := []],
                               [1], [], [], {1}, map[1 := []])

  const TO_SERVING: seq<Tasks.Step> := [Tasks.Submit(1, Job([4], 0)), Tasks.Start(1, 7, [11], None)]

  /** Task 1 waits. */
  const WAITING := START.(tasks := map[1 := Job([4], 0)], queues := map[5 := [1]])

  lemma FirstSubmitted()
    ensures Tasks.Fresh(START) && Tasks.Enabled(START, TO_SERVING[0]) && Tasks.Apply(START, TO_SERVING[0]) == WAITING
  {
    assert [] + [1] == [1];
  }

  lemma FirstStarted()
    ensures Tasks.Enabled(WAITING, TO_SERVING[1]) && Tasks.Apply(WAITING, TO_SERVING[1]) == SERVING
  {
    hide Tasks.Unqueue, RemoveAll;
    OneUnqueued();
    assert Tasks.QueueOf(WAITING.queues, 5) == [1];
    assert [] + [1] == [1] && Tasks.LogOf(WAITING, 1) == [];
    hide Tasks.QueueOf, Tasks.LogOf;
    assert Tasks.Apply(WAITING, TO_SERVING[1]).tasks == SERVING.tasks;
    assert Tasks.Apply(WAITING, TO_SERVING[1]).vehicles == SERVING.vehicles;
  }

  lemma OneUnqueued()
    ensures Tasks.Unqueue(map[5 := [1]], 1) == map[5 := []]
  {
    assert [1][..0] == [] && RemoveAll([1], 1) == [];
  }

  lemma Serves() returns (states: seq<Tasks.State>)
    ensures Tasks.Fresh(START) && Tasks.IsRun(states, TO_SERVING)
    ensures states[0] == START && states[2] == SERVING
  {
    FirstSubmitted();
    FirstStarted();
    hide Tasks.Enabled, Tasks.Apply, Tasks.Fresh;
    states := [START, WAITING, SERVING];
  }

  lemma OneMore(states: seq<Tasks.State>, steps: seq<Tasks.Step>, step: Tasks.Step, s: Tasks.State)
    requires Tasks.IsRun(states, steps)
    requires Tasks.Enabled(states[|steps|], step) && s == Tasks.Apply(states[|steps|], step)
    ensures Tasks.IsRun(states + [s], steps + [step])
  {
    hide Tasks.Enabled, Tasks.Apply;
    var all, more := states + [s], steps + [step];
    forall i | 0 <= i < |more| ensures Tasks.Enabled(all[i], more[i]) && all[i + 1] == Tasks.Apply(all[i], more[i]) {
      assert i < |steps| ==> all[i] == states[i] && all[i + 1] == states[i + 1] && more[i] == steps[i];
    }
  }

  /** Task 2 names vehicle 7 while it serves task 1: cancelling task 2 sets the vehicle idle. */
  lemma CancelFreesServing() returns (states: seq<Tasks.State>, steps: seq<Tasks.Step>)
    ensures Tasks.IsRun(states, steps) && Tasks.Fresh(states[0]) && |steps| == 4
    ensures steps[3] == Tasks.Cancel(2) && 2 in states[3].tasks && !Tasks.Clear(states[3], 2)
    ensures Tasks.OneTaskPerVehicle(states[3]) && !Tasks.OneTaskPerVehicle(states[4])
  {
    var before := Serves();
    var job := Job([6], 7);
    states, steps := SecondJob(before, job, Tasks.Cancel(2));
  }

  /** Task 2 has no node and names vehicle 7: it is finished at once and sets the vehicle idle. */
  lemma FinishFreesServing() returns (states: seq<Tasks.State>, steps: seq<Tasks.Step>)
    ensures Tasks.IsRun(states, steps) && Tasks.Fresh(states[0]) && |steps| == 4
    ensures steps[3] == Tasks.Step.Finish(2) && 2 in states[3].tasks && !Tasks.Clear(states[3], 2)
    ensures Tasks.OneTaskPerVehicle(states[3]) && !Tasks.OneTaskPerVehicle(states[4])
  {
    var before := Serves();
    states, steps := SecondJob(before, Job([], 7), Tasks.Step.Finish(2));
  }

  lemma SecondJob(before: seq<Tasks.State>, job: Tasks.Task, last: Tasks.Step)
    returns (states: seq<Tasks.State>, steps: seq<Tasks.Step>)
    requires Tasks.IsRun(before, TO_SERVING) && Tasks.Fresh(START) && before[0] == START && before[2] == SERVING
    requires (job == Job([6], 7) && last == Tasks.Cancel(2)) || (job == Job([], 7) && last == Tasks.Step.Finish(2))
    ensures Tasks.IsRun(states, steps) && Tasks.Fresh(states[0]) && |steps| == 4
    ensures steps[3] == last && 2 in states[3].tasks && !Tasks.Clear(states[3], 2)
    ensures Tasks.OneTaskPerVehicle(states[3]) && !Tasks.OneTaskPerVehicle(states[4])
  {
    var both, after := BothKnown(job), FirstOnIdle(job, last);
    CancelServing();
    SecondSubmitted(job);
    if last.Cancel? {
      SecondCancelled(job);
    } else {
      SecondFinished(job);
    }
    FirstIsOnIdle(job, last);
    hide *;
    OneMore(before, TO_SERVING, Tasks.Submit(2, job), both);
    OneMore(before + [both], TO_SERVING + [Tasks.Submit(2, job)], last, after);
    states, steps := before + [both] + [after], TO_SERVING + [Tasks.Submit(2, job)] + [last];
  }

  /** Task 2 waits while vehicle 7 serves task 1. */
  function BothKnown(job: Tasks.Task): Tasks.State {
    SERVING.(tasks := map[1 := SERVING.tasks[1], 2 := job], queues := map[5 := [2]])
  }

  /** Task 2 is gone, and vehicle 7 is idle while task 1 executes. */
  function FirstOnIdle(job: Tasks.Task, last: Tasks.Step): Tasks.State {
    var marked := job.(cancelled := true);
    if last.Cancel? then
      SERVING.(tasks := map[1 := SERVING.tasks[1].(cancelled := true), 2 := marked], vehicles := map[7 := IDLE], gone := [2])
    else SERVING.(tasks := map[1 := SERVING.tasks[1], 2 := job], vehicles := map[7 := IDLE], done := [2])
  }

  lemma SecondSubmitted(job: Tasks.Task)
    requires job == Job([6], 7) || job == Job([], 7)
    ensures Tasks.Enabled(SERVING, Tasks.Submit(2, job)) && Tasks.Apply(SERVING, Tasks.Submit(2, job)) == BothKnown(job)
    ensures 2 in BothKnown(job).tasks && !Tasks.Clear(BothKnown(job), 2) && Tasks.OneTaskPerVehicle(BothKnown(job))
  {
    assert [] + [2] == [2];
    var both := BothKnown(job);
    assert Tasks.Apply(SERVING, Tasks.Submit(2, job)).queues == both.queues;
    assert forall id :: Tasks.UnderWay(both, id) ==> id == 1;
  }

  lemma SecondUnqueued(job: Tasks.Task)
    ensures Tasks.Unqueue(BothKnown(job).queues, 2) == map[5 := []]
  {
    assert [2][..0] == [] && RemoveAll([2], 2) == [];
  }

  lemma SecondCancelled(job: Tasks.Task)
    requires job == Job([6], 7)
    ensures Tasks.Enabled(BothKnown(job), Tasks.Cancel(2))
    ensures Tasks.Apply(BothKnown(job), Tasks.Cancel(2)) == FirstOnIdle(job, Tasks.Cancel(2))
  {
    SecondUnqueued(job);
    hide Tasks.Unqueue, RemoveAll;
    var both := BothKnown(job);
    assert Tasks.Queued(both, 2);
    assert Tasks.Apply(both, Tasks.Cancel(2)) == Tasks.CancelLive(both, 2);
    assert Tasks.CancelLive(both, 2).tasks == FirstOnIdle(job, Tasks.Cancel(2)).tasks;
  }

  lemma SecondFinished(job: Tasks.Task)
    requires job == Job([], 7)
    ensures Tasks.Enabled(BothKnown(job), Tasks.Step.Finish(2))
    ensures Tasks.Apply(BothKnown(job), Tasks.Step.Finish(2)) == FirstOnIdle(job, Tasks.Step.Finish(2))
  {
    SecondUnqueued(job);
    hide Tasks.Unqueue, RemoveAll;
    assert Tasks.Queued(BothKnown(job), 2);
  }

  lemma FirstIsOnIdle(job: Tasks.Task, last: Tasks.Step)
    ensures !Tasks.OneTaskPerVehicle(FirstOnIdle(job, last))
  {
    var after := FirstOnIdle(job, last);
    assert Tasks.UnderWay(after, 1) && after.vehicles[7].idle && Tasks.AgvOf(after, 1) == 7;
  }

  /** Vehicle 7 after its task was cancelled, while the thread of the task still runs. */
  const CANCELLED := SERVING.(tasks := map[1 := SERVING.tasks[1].(cancelled := true)], vehicles := map[7 := IDLE],
                              doing := [], gone := [1])

  /** Task 1 is cancelled while its thread runs; its vehicle is idle, and task 2 is started on it. */
  lemma CancelledThreadRuns() returns (states: seq<Tasks.State>, steps: seq<Tasks.Step>)
    ensures Tasks.IsRun(states, steps) && Tasks.Fresh(states[0]) && |steps| == 5
    ensures steps[2] == Tasks.Cancel(1) && Tasks.Careful(states[2], steps[2])
    ensures steps[4].Start? && !Tasks.OneThreadPerVehicle(states[5])
  {
    var before := Serves();
    assert |before| == 3;
    hide *;
    var submit, start := Tasks.Submit(2, Job([6], 0)), Tasks.Start(2, 7, [12], None);
    var waiting, after := RestartedOnIdle(submit, start);
    CancelServing();
    OneMore(before, TO_SERVING, Tasks.Cancel(1), CANCELLED);
    OneMore(before + [CANCELLED], TO_SERVING + [Tasks.Cancel(1)], submit, waiting);
    OneMore(before + [CANCELLED] + [waiting], TO_SERVING + [Tasks.Cancel(1)] + [submit], start, after);
    states := before + [CANCELLED] + [waiting] + [after];
    steps := TO_SERVING + [Tasks.Cancel(1)] + [submit] + [start];
  }

  lemma CancelServing()
    ensures Tasks.Enabled(SERVING, Tasks.Cancel(1)) && Tasks.Apply(SERVING, Tasks.Cancel(1)) == CANCELLED
    ensures Tasks.Careful(SERVING, Tasks.Cancel(1)) && |TO_SERVING| == 2
  {
    assert RemoveAll([1], 1) == [] by { assert [1][..0] == []; }
    assert Tasks.Unqueue(SERVING.queues, 1) == map[5 := []];
  }

  lemma RestartedOnIdle(submit: Tasks.Step, start: Tasks.Step) returns (waiting: Tasks.State, after: Tasks.State)
    requires submit == Tasks.Submit(2, Job([6], 0)) && start == Tasks.Start(2, 7, [12], None)
    ensures Tasks.Enabled(CANCELLED, submit) && waiting == Tasks.Apply(CANCELLED, submit)
    ensures Tasks.Enabled(waiting, start) && after == Tasks.Apply(waiting, start)
    ensures !Tasks.OneThreadPerVehicle(after)
  {
    assert [] + [2] == [2];
    waiting := CANCELLED.(tasks := CANCELLED.tasks[2 := Job([6], 0)], queues := map[5 := [2]]);
    assert Tasks.Apply(CANCELLED, submit) == waiting;
    hide Tasks.Unqueue, RemoveAll;
    after := Tasks.Apply(waiting, start);
    assert 1 in after.running && 2 in after.running && Tasks.AgvOf(after, 1) == 7 && Tasks.AgvOf(after, 2) == 7;
  }
}
