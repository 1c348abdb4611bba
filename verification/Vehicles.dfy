/** What a vehicle gives back when it arrives at or leaves a station. */
module Vehicles {
  import opened Wrappers
  import opened Maps
  import opened Reservations
  import opened Routes
  import opened ShortestRoutes
  import opened MapManagers
  import Blocks
  import Traffic

  /** Ids of the blocks that list the spirit: `getBlocks`. */
  function BlocksWith(blocks: seq<MapBlock>, spirit: int): (r: seq<int>)
    ensures forall i :: i in r <==> exists b :: b in blocks && b.id == i && spirit in b.spirits
  {
    if blocks == [] then []
    else
      var rest, last := blocks[..|blocks| - 1], blocks[|blocks| - 1];
      assert blocks == rest + [last];
      if spirit in last.spirits then BlocksWith(rest, spirit) + [last.id] else BlocksWith(rest, spirit)
  }

  function SpiritBlocks(m: seq<Spirit>, spirit: int): seq<int> {
    BlocksWith(BlocksOf(m), spirit)
  }

  /** What becomes of the next station on arrival: it is the one behind the first occurrence of this
      station, 0 when that is the last one, and stays when there is none. */
  ghost predicate NextIs(stations: seq<int>, station: int, before: int, next: int) {
    && (forall i {:trigger stations[..i]} | 0 <= i < |stations| && stations[i] == station && station !in stations[..i] ::
         next == if i + 1 < |stations| then stations[i + 1] else 0)
    && (station !in stations ==> next == before)
  }

  /** A block that lists the spirit is occupied by another vehicle. */
  ghost predicate Occupied(m: seq<Spirit>, blocks: seq<Blocks.BBlock>, spirit: int, agv: int) {
    exists b, v, s :: Block(b) in m && spirit in b.spirits && Blocks.HasFact(blocks, b.id, v, s) && v != agv
  }

  lemma OccupiedIff(m: seq<Spirit>, blocks: seq<Blocks.BBlock>, spirit: int, agv: int)
    ensures Occupied(m, blocks, spirit, agv) <==> !Blocks.AllFreeFor(blocks, SpiritBlocks(m, spirit), agv)
  {
    hide Blocks.HasFact;
    if !Blocks.AllFreeFor(blocks, SpiritBlocks(m, spirit), agv) {
      var i :| i in SpiritBlocks(m, spirit) && !Blocks.FreeFor(blocks, i, agv);
      var v, s :| Blocks.HasFact(blocks, i, v, s) && v != agv;
      var b :| b in BlocksOf(m) && b.id == i && spirit in b.spirits;
      assert Block(b) in m;
    }
    if Occupied(m, blocks, spirit, agv) {
      var b, v, s :| Block(b) in m && spirit in b.spirits && Blocks.HasFact(blocks, b.id, v, s) && v != agv;
      assert b in BlocksOf(m) && b.id in SpiritBlocks(m, spirit);
      assert !Blocks.FreeFor(blocks, b.id, agv);
    }
  }

  // ---------------------------------------------------------------- the release loop

  /** What one line of the driven part gives back: its start, its end unless it is the line that
      arrives, and itself. */
  function ReleaseLine(m: seq<Spirit>, occ: Occupancy, p: MapPath, arrives: bool, agv: int): Occupancy {
    var occ1 := FreeStation(m, occ, p.start, agv);
    var occ2 := if arrives then occ1 else FreeStation(m, occ1, p.end, agv);
    FreeLine(m, occ2, p.id, agv)
  }

  /** Lines `0 .. n` of the route are given back; line `index` is the one that arrives. */
  function ReleaseLines(m: seq<Spirit>, occ: Occupancy, paths: seq<MapPath>, n: nat, index: int, agv: int): Occupancy
    requires n <= |paths|
  {
    if n == 0 then occ
    else ReleaseLine(m, ReleaseLines(m, occ, paths, n - 1, index, agv), paths[n - 1], n - 1 == index, agv)
  }

  /** The last line that ends at the station, or -1. */
  function LastInto(paths: seq<MapPath>, station: int): (r: int)
    ensures -1 <= r < |paths|
    ensures r >= 0 ==> paths[r].end == station
    ensures forall k :: r < k < |paths| ==> paths[k].end != station
  {
    if paths == [] then -1
    else if paths[|paths| - 1].end == station then |paths| - 1
    else LastInto(paths[..|paths| - 1], station)
  }

  /** The reservations after an arrival. */
  function Arrived(m: seq<Spirit>, occ: Occupancy, agv: int, now: int, lines: seq<int>, station: int): Occupancy {
    var paths := KnownPaths(m, lines);
    var occ1 := if station > 0 && now > 0 then FreeStation(m, occ, now, agv) else occ;
    var index := LastInto(paths, station);
    ReleaseLines(m, occ1, paths, index + 1, index, agv)
  }

  /** The station is passed by the first `n` lines, not counting the end of the arriving line. */
  ghost predicate Passed(paths: seq<MapPath>, n: nat, index: int, x: int)
    requires n <= |paths|
  {
    exists i :: 0 <= i < n && (paths[i].start == x || (i != index && paths[i].end == x))
  }

  ghost predicate Driven(paths: seq<MapPath>, n: nat, l: int)
    requires n <= |paths|
  {
    exists i :: 0 <= i < n && paths[i].id == l
  }

  lemma OneMoreLine(paths: seq<MapPath>, n: nat, index: int)
    requires 0 < n <= |paths|
    ensures forall x :: Passed(paths, n, index, x) <==>
              || Passed(paths, n - 1, index, x)
              || paths[n - 1].start == x
              || (n - 1 != index && paths[n - 1].end == x)
    ensures forall l :: Driven(paths, n, l) <==> Driven(paths, n - 1, l) || paths[n - 1].id == l
  {
    forall x | paths[n - 1].start == x || (n - 1 != index && paths[n - 1].end == x)
      ensures Passed(paths, n, index, x)
    {}
    forall l | paths[n - 1].id == l ensures Driven(paths, n, l) {}
  }

  /** Exactly the passed stations and the driven lines are given back, and only by this vehicle. */
  lemma {:induction false} ReleaseLinesHolds(m: seq<Spirit>, occ: Occupancy, paths: seq<MapPath>, n: nat, index: int, agv: int)
    requires n <= |paths| && agv != 0
    ensures var occ' := ReleaseLines(m, occ, paths, n, index, agv);
      && (forall x :: Owner(occ', x) == if Owner(occ, x) == agv && Passed(paths, n, index, x) then 0 else Owner(occ, x))
      && (forall l, a :: a in Holders(occ', l) <==> a in Holders(occ, l) && !(a == agv && Driven(paths, n, l)))
  {
    if n > 0 {
      hide ReleaseLine, Owner, Holders, Passed, Driven;
      ReleaseLinesHolds(m, occ, paths, n - 1, index, agv);
      var before, p := ReleaseLines(m, occ, paths, n - 1, index, agv), paths[n - 1];
      ReleaseLineHolds(m, before, p, n - 1 == index, agv);
      OneMoreLine(paths, n, index);
    }
  }

  lemma ReleaseLineHolds(m: seq<Spirit>, occ: Occupancy, p: MapPath, arrives: bool, agv: int)
    requires agv != 0
    ensures var occ' := ReleaseLine(m, occ, p, arrives, agv);
      && (forall x :: Owner(occ', x) ==
           if Owner(occ, x) == agv && (p.start == x || (!arrives && p.end == x)) then 0 else Owner(occ, x))
      && (forall l, a :: a in Holders(occ', l) <==> a in Holders(occ, l) && !(a == agv && p.id == l))
  {
    hide Forget, CommonGroups;
  }

  // ---------------------------------------------------------------- what an arrival leaves

  /** Driving a route to its goal gives back every line of it; and the vehicle still holds the goal
      if and only if no line before the last one ends there. */
  lemma ArrivalAtGoal(net: Network, planned: Occupancy, qu: Query, route: seq<int>, occ: Occupancy, agv: int, now: int)
    requires Loaded(net) && IsRoute(net, planned, qu, route)
    requires agv > 0 && now != qu.end && qu.start != qu.end && qu.end > 0
    requires Owner(occ, qu.end) == agv
    ensures var after := Arrived(net.m, occ, agv, now, route, qu.end);
      && (forall l :: l in route ==> agv !in Holders(after, l))
      && (forall i :: 0 <= i < |route| ==>
           var p := PathById(net.m, route[i]).value;
           (p.start != qu.end ==> Owner(after, p.start) != agv) && (p.end != qu.end ==> Owner(after, p.end) != agv))
      && (Owner(after, qu.end) == agv <==> GoalOnlyAtEnd(net.m, route, qu.end))
  {
    hide IsRoute, ReleaseLines, Loaded, KnownPaths, LastInto, Forget, CommonGroups, FreeStation, Owner, Holders, PathById;
    hide Passed, Driven, Arrived;
    var m, paths := net.m, KnownPaths(net.m, route);
    RoutePaths(net, planned, qu, route);
    var occ1 := if now > 0 then FreeStation(m, occ, now, agv) else occ;
    ArrivedIs(m, occ, agv, now, route, qu.end, occ1);
    ReleaseLinesHolds(m, occ1, paths, |paths|, |paths| - 1, agv);
    WholeRoutePassed(paths, qu.start, qu.end);
    forall l | l in route ensures Driven(paths, |paths|, l) {
      var i :| 0 <= i < |route| && route[i] == l;
      assert paths[i].id == l;
    }
  }

  /** Arriving where the last line ends gives back the whole route. */
  lemma ArrivedIs(m: seq<Spirit>, occ: Occupancy, agv: int, now: int, route: seq<int>, station: int, occ1: Occupancy)
    requires var paths := KnownPaths(m, route); |paths| > 0 && paths[|paths| - 1].end == station > 0
    requires occ1 == if now > 0 then FreeStation(m, occ, now, agv) else occ
    requires agv > 0 && now != station && Owner(occ, station) == agv
    ensures var paths := KnownPaths(m, route);
      Arrived(m, occ, agv, now, route, station) == ReleaseLines(m, occ1, paths, |paths|, |paths| - 1, agv)
    ensures Owner(occ1, station) == agv && forall x, a :: a in Holders(occ1, x) <==> a in Holders(occ, x)
  {
    hide ReleaseLines, KnownPaths, Forget, CommonGroups;
  }

  /** On a connected route every station but the goal is passed, every line is driven, and the goal is
      passed exactly when a line before the last one ends there. */
  lemma WholeRoutePassed(paths: seq<MapPath>, start: int, goal: int)
    requires |paths| > 0 && paths[0].start == start != goal
    requires forall i :: 0 <= i < |paths| - 1 ==> paths[i].end == paths[i + 1].start
    ensures forall i :: 0 <= i < |paths| ==> Driven(paths, |paths|, paths[i].id)
    ensures forall i :: 0 <= i < |paths| ==> Passed(paths, |paths|, |paths| - 1, paths[i].start)
    ensures forall i :: 0 <= i < |paths| - 1 ==> Passed(paths, |paths|, |paths| - 1, paths[i].end)
    ensures Passed(paths, |paths|, |paths| - 1, goal) <==> exists i :: 0 <= i < |paths| - 1 && paths[i].end == goal
  {
    if Passed(paths, |paths|, |paths| - 1, goal) {
      var i :| 0 <= i < |paths| && (paths[i].start == goal || (i != |paths| - 1 && paths[i].end == goal));
      if paths[i].start == goal {
        assert paths[i - 1].end == paths[i - 1 + 1].start;
      }
    }
  }

  /** A dispatched route of positive lines, driven to its goal: the vehicle holds none of its lines
      and, of its stations, exactly the goal. */
  lemma DispatchedArrival(net: Network, planned: Occupancy, qu: Query, route: seq<int>, distance: int,
                          occ: Occupancy, agv: int, now: int)
    requires Loaded(net) && route != [] && IsShortest(net, planned, qu, route, distance)
    requires forall i :: 0 <= i < |route| ==> LengthOf(net.m, route[i]) > 0
    requires agv > 0 && now != qu.end && qu.start != qu.end && qu.end > 0
    requires Owner(occ, qu.end) == agv
    ensures var after := Arrived(net.m, occ, agv, now, route, qu.end);
      && (forall l :: l in route ==> agv !in Holders(after, l))
      && Owner(after, qu.end) == agv
      && (forall i :: 0 <= i < |route| ==>
           var p := PathById(net.m, route[i]).value;
           (Owner(after, p.start) == agv <==> p.start == qu.end) && (Owner(after, p.end) == agv <==> p.end == qu.end))
  {
    ShortestMeetsGoalOnce(net, planned, qu, route, distance);
    hide GoalOnlyAtEnd, Arrived, IsRoute, Loaded;
    ArrivalAtGoal(net, planned, qu, route, occ, agv, now);
  }

  // ---------------------------------------------------------------- an arrival as releases

  /** The spirits the first `n` lines give back. */
  function GivenBack(paths: seq<MapPath>, n: nat, index: int): set<int>
    requires n <= |paths|
  {
    if n == 0 then {}
    else
      var p := paths[n - 1];
      GivenBack(paths, n - 1, index) + {p.start, p.id} + if n - 1 == index then {} else {p.end}
  }

  /** The spirits an arrival gives back. */
  function GivenAtArrival(m: seq<Spirit>, now: int, lines: seq<int>, station: int): set<int> {
    var paths := KnownPaths(m, lines);
    var index := LastInto(paths, station);
    (if station > 0 && now > 0 then {now} else {}) + GivenBack(paths, index + 1, index)
  }

  lemma {:induction false} GivenBackIs(paths: seq<MapPath>, n: nat, index: int)
    requires n <= |paths|
    ensures forall x :: x in GivenBack(paths, n, index) <==> Passed(paths, n, index, x) || Driven(paths, n, x)
  {
    if n > 0 {
      hide Passed, Driven;
      GivenBackIs(paths, n - 1, index);
      OneMoreLine(paths, n, index);
    } else {
      assert forall x :: !Passed(paths, 0, index, x) && !Driven(paths, 0, x);
    }
  }

  function LineSteps(p: MapPath, arrives: bool, agv: int): seq<Traffic.Step> {
    [Traffic.ReleaseStation(p.start, agv)]
    + (if arrives then [] else [Traffic.ReleaseStation(p.end, agv)])
    + [Traffic.ReleaseLine(p.id, agv)]
  }

  function ReleaseSteps(paths: seq<MapPath>, n: nat, index: int, agv: int): seq<Traffic.Step>
    requires n <= |paths|
  {
    if n == 0 then []
    else ReleaseSteps(paths, n - 1, index, agv) + LineSteps(paths[n - 1], n - 1 == index, agv)
  }

  /** The releases of an arrival, in order. */
  function ArrivalSteps(m: seq<Spirit>, agv: int, now: int, lines: seq<int>, station: int): seq<Traffic.Step> {
    var paths := KnownPaths(m, lines);
    var index := LastInto(paths, station);
    (if station > 0 && now > 0 then [Traffic.ReleaseStation(now, agv)] else [])
    + ReleaseSteps(paths, index + 1, index, agv)
  }

  lemma LineStepsRelease(m: seq<Spirit>, occ: Occupancy, p: MapPath, arrives: bool, agv: int)
    ensures Traffic.AfterReleases(m, occ, LineSteps(p, arrives, agv)) == ReleaseLine(m, occ, p, arrives, agv)
  {
    hide FreeStation, FreeLine;
    var a, b, c := Traffic.ReleaseStation(p.start, agv), Traffic.ReleaseStation(p.end, agv), Traffic.ReleaseLine(p.id, agv);
    assert [a, c][..1] == [a] && [a][..0] == [] && [a, b, c][..2] == [a, b] && [a, b][..1] == [a];
    assert LineSteps(p, arrives, agv) == if arrives then [a, c] else [a, b, c];
    assert Traffic.AfterReleases(m, occ, [a]) == FreeStation(m, occ, p.start, agv);
    assert Traffic.AfterReleases(m, occ, [a, b]) == FreeStation(m, FreeStation(m, occ, p.start, agv), p.end, agv);
  }

  lemma {:induction false} StepsRelease(m: seq<Spirit>, occ: Occupancy, paths: seq<MapPath>, n: nat, index: int, agv: int)
    requires n <= |paths|
    ensures Traffic.AfterReleases(m, occ, ReleaseSteps(paths, n, index, agv)) == ReleaseLines(m, occ, paths, n, index, agv)
  {
    hide *;
    NoRelease(m, occ, paths, index, agv);
    if n > 0 {
      OneMoreRelease(m, occ, paths, n, index, agv);
      StepsRelease(m, occ, paths, n - 1, index, agv);
      var front, last := ReleaseSteps(paths, n - 1, index, agv), LineSteps(paths[n - 1], n - 1 == index, agv);
      Traffic.AfterAppend(m, occ, front, last);
      LineStepsRelease(m, Traffic.AfterReleases(m, occ, front), paths[n - 1], n - 1 == index, agv);
    }
  }

  lemma NoRelease(m: seq<Spirit>, occ: Occupancy, paths: seq<MapPath>, index: int, agv: int)
    ensures Traffic.AfterReleases(m, occ, ReleaseSteps(paths, 0, index, agv)) == occ
    ensures ReleaseLines(m, occ, paths, 0, index, agv) == occ
  {
    hide ReleaseLine, LineSteps, Traffic.AfterRelease;
  }

  lemma OneMoreRelease(m: seq<Spirit>, occ: Occupancy, paths: seq<MapPath>, n: nat, index: int, agv: int)
    requires 0 < n <= |paths|
    ensures ReleaseSteps(paths, n, index, agv)
            == ReleaseSteps(paths, n - 1, index, agv) + LineSteps(paths[n - 1], n - 1 == index, agv)
    ensures ReleaseLines(m, occ, paths, n, index, agv)
            == ReleaseLine(m, ReleaseLines(m, occ, paths, n - 1, index, agv), paths[n - 1], n - 1 == index, agv)
  {
    hide LineSteps, ReleaseLine;
  }

  lemma ArrivedIsReleases(m: seq<Spirit>, occ: Occupancy, agv: int, now: int, lines: seq<int>, station: int)
    ensures Arrived(m, occ, agv, now, lines, station)
            == Traffic.AfterReleases(m, occ, ArrivalSteps(m, agv, now, lines, station))
  {
    hide *;
    var paths := KnownPaths(m, lines);
    var index := LastInto(paths, station);
    LastIntoEnds(paths, station);
    var first := if station > 0 && now > 0 then [Traffic.ReleaseStation(now, agv)] else [];
    var occ1 := if station > 0 && now > 0 then FreeStation(m, occ, now, agv) else occ;
    ArrivalUnfolds(m, occ, agv, now, lines, station);
    FirstRelease(m, occ, agv, now, station);
    Traffic.AfterAppend(m, occ, first, ReleaseSteps(paths, index + 1, index, agv));
    StepsRelease(m, occ1, paths, index + 1, index, agv);
  }

  lemma ArrivalUnfolds(m: seq<Spirit>, occ: Occupancy, agv: int, now: int, lines: seq<int>, station: int)
    ensures var paths := KnownPaths(m, lines);
      var index := LastInto(paths, station);
      && -1 <= index < |paths|
      && Arrived(m, occ, agv, now, lines, station)
         == ReleaseLines(m, if station > 0 && now > 0 then FreeStation(m, occ, now, agv) else occ, paths, index + 1, index, agv)
      && ArrivalSteps(m, agv, now, lines, station)
         == (if station > 0 && now > 0 then [Traffic.ReleaseStation(now, agv)] else [])
            + ReleaseSteps(paths, index + 1, index, agv)
  {
    hide FreeStation, KnownPaths, LastInto, ReleaseLines, ReleaseSteps;
    LastIntoEnds(KnownPaths(m, lines), station);
  }

  lemma FirstRelease(m: seq<Spirit>, occ: Occupancy, agv: int, now: int, station: int)
    ensures Traffic.AfterReleases(m, occ, if station > 0 && now > 0 then [Traffic.ReleaseStation(now, agv)] else [])
            == if station > 0 && now > 0 then FreeStation(m, occ, now, agv) else occ
  {
    hide FreeStation, FreeLine;
  }

  /** An arrival is a run of release steps of the reservation system. */
  lemma ArrivalIsRun(net: Network, s: Traffic.State, agv: int, now: int, lines: seq<int>, station: int)
    returns (states: seq<Traffic.State>, steps: seq<Traffic.Step>)
    requires agv > 0
    ensures Traffic.IsRun(net, states, steps) && states[0] == s
    ensures states[|steps|] == s.(occ := Arrived(net.m, s.occ, agv, now, lines, station))
    ensures forall st :: st in steps ==> (st.ReleaseStation? || st.ReleaseLine?) && st.who == agv
  {
    hide Traffic.AfterReleases, Arrived, KnownPaths, LastInto, Traffic.IsRun;
    steps := ArrivalSteps(net.m, agv, now, lines, station);
    ArrivalStepsAre(net.m, agv, now, lines, station);
    assert forall i :: 0 <= i < |steps| ==> steps[i] in steps;
    states := Traffic.ReleasesAreRun(net, s, steps);
    ArrivedIsReleases(net.m, s.occ, agv, now, lines, station);
  }

  /** A release of one of the lines, or of one of their stations. */
  predicate ReleaseOf(paths: seq<MapPath>, st: Traffic.Step, agv: int) {
    && (|| (st.ReleaseStation? && exists p :: p in paths && (st.station == p.start || st.station == p.end))
        || (st.ReleaseLine? && exists p :: p in paths && st.line == p.id))
    && st.who == agv
  }

  lemma LineStepsAre(paths: seq<MapPath>, p: MapPath, arrives: bool, agv: int)
    requires p in paths
    ensures forall st :: st in LineSteps(p, arrives, agv) ==> ReleaseOf(paths, st, agv)
    ensures forall x :: x in Spirits(LineSteps(p, arrives, agv)) <==> x == p.start || x == p.id || (!arrives && x == p.end)
  {
    var a, b, c := Traffic.ReleaseStation(p.start, agv), Traffic.ReleaseStation(p.end, agv), Traffic.ReleaseLine(p.id, agv);
    assert forall st :: st in LineSteps(p, arrives, agv) <==> st == a || st == c || (!arrives && st == b);
    assert Traffic.SpiritOf(a) == p.start && Traffic.SpiritOf(b) == p.end && Traffic.SpiritOf(c) == p.id;
  }

  function Spirits(steps: seq<Traffic.Step>): set<int> {
    set st | st in steps :: Traffic.SpiritOf(st)
  }

  lemma SpiritsAppend(a: seq<Traffic.Step>, b: seq<Traffic.Step>)
    ensures Spirits(a + b) == Spirits(a) + Spirits(b)
  {
    assert forall st :: st in a + b <==> st in a || st in b;
  }

  lemma NothingGiven(paths: seq<MapPath>, index: int, agv: int)
    ensures ReleaseSteps(paths, 0, index, agv) == [] && GivenBack(paths, 0, index) == {} == Spirits([])
  {}

  lemma OneMoreGiven(paths: seq<MapPath>, n: nat, index: int, agv: int)
    requires 0 < n <= |paths|
    ensures var p := paths[n - 1];
      && ReleaseSteps(paths, n, index, agv) == ReleaseSteps(paths, n - 1, index, agv) + LineSteps(p, n - 1 == index, agv)
      && forall x :: x in GivenBack(paths, n, index) <==>
           x in GivenBack(paths, n - 1, index) || x == p.start || x == p.id || (n - 1 != index && x == p.end)
  {
    hide LineSteps;
  }

  lemma {:induction false} ReleaseStepsAre(paths: seq<MapPath>, n: nat, index: int, agv: int)
    requires n <= |paths|
    ensures forall st :: st in ReleaseSteps(paths, n, index, agv) ==> ReleaseOf(paths, st, agv)
    ensures forall x :: x in Spirits(ReleaseSteps(paths, n, index, agv)) <==> x in GivenBack(paths, n, index)
  {
    hide *;
    NothingGiven(paths, index, agv);
    if n > 0 {
      var p, arrives := paths[n - 1], n - 1 == index;
      var front, last := ReleaseSteps(paths, n - 1, index, agv), LineSteps(p, arrives, agv);
      OneMoreGiven(paths, n, index, agv);
      ReleaseStepsAre(paths, n - 1, index, agv);
      LineStepsAre(paths, p, arrives, agv);
      SpiritsAppend(front, last);
    }
  }

  lemma ArrivalStepsAre(m: seq<Spirit>, agv: int, now: int, lines: seq<int>, station: int)
    ensures var steps, paths := ArrivalSteps(m, agv, now, lines, station), KnownPaths(m, lines);
      && (forall st :: st in steps ==> ReleaseOf(paths, st, agv) || (now > 0 && st == Traffic.ReleaseStation(now, agv)))
      && forall x :: x in Spirits(steps) <==> x in GivenAtArrival(m, now, lines, station)
  {
    hide KnownPaths, LastInto, ReleaseSteps, GivenBack, ReleaseOf;
    var paths := KnownPaths(m, lines);
    var index := LastInto(paths, station);
    LastIntoEnds(paths, station);
    ReleaseStepsAre(paths, index + 1, index, agv);
    var first := if station > 0 && now > 0 then [Traffic.ReleaseStation(now, agv)] else [];
    assert Spirits(first) == if station > 0 && now > 0 then {now} else {} by {
      assert Traffic.SpiritOf(Traffic.ReleaseStation(now, agv)) == now;
    }
    hide Spirits;
    SpiritsAppend(first, ReleaseSteps(paths, index + 1, index, agv));
  }

  /** An arrival leaves the group records right if and only if, before it, every recorded COMMON group of
      everything it gives back was the vehicle's own.  It also gives back stations the vehicle never
      reserved: the ones it passed. */
  lemma ArrivalSoundIff(m: seq<Spirit>, occ: Occupancy, agv: int, now: int, lines: seq<int>, station: int)
    requires IsMap(m) && Traffic.GroupsRight(m, occ) && agv > 0
    requires forall p :: p in KnownPaths(m, lines) ==> IsPoint(m, p.start) && IsPoint(m, p.end)
    requires now > 0 ==> IsPoint(m, now)
    ensures Traffic.GroupsSound(m, Arrived(m, occ, agv, now, lines, station))
            <==> forall x :: x in GivenAtArrival(m, now, lines, station) ==> Traffic.GroupsOpenFor(m, occ, x, agv)
  {
    hide KnownPaths, LastInto, Arrived, ArrivalSteps, GivenAtArrival, Traffic.AfterReleases, IsMap, IsPoint;
    hide Traffic.GroupsRight, Traffic.GroupsSound, Traffic.GroupsOpenFor, PathById;
    var steps, paths := ArrivalSteps(m, agv, now, lines, station), KnownPaths(m, lines);
    ArrivedIsReleases(m, occ, agv, now, lines, station);
    ArrivalStepsAre(m, agv, now, lines, station);
    Traffic.MapIds(m);
    KnownPathsAre(m, lines);
    forall st | st in steps ensures Traffic.OwnRelease(m, st, agv) {
      if st.ReleaseStation? {
        Traffic.GoalIsNoLine(m, st.station);
      }
    }
    assert forall st :: st in steps ==> Traffic.SpiritOf(st) in Spirits(steps);
    Traffic.OwnReleasesSoundIff(m, occ, steps, agv);
  }

  // ---------------------------------------------------------------- from the dispatch to the goal

  /** What an arrival leaves of the stations and lines, spirit by spirit. */
  lemma ArrivedHolds(m: seq<Spirit>, occ: Occupancy, agv: int, now: int, lines: seq<int>, station: int)
    requires agv > 0
    ensures var paths := KnownPaths(m, lines);
      var index := LastInto(paths, station);
      var after := Arrived(m, occ, agv, now, lines, station);
      && (forall x :: Owner(after, x) ==
           if Owner(occ, x) == agv && ((station > 0 && x == now > 0) || Passed(paths, index + 1, index, x)) then 0
           else Owner(occ, x))
      && (forall l, a :: a in Holders(after, l) <==> a in Holders(occ, l) && !(a == agv && Driven(paths, index + 1, l)))
  {
    hide ReleaseLines, KnownPaths, LastInto, Passed, Driven, Forget, CommonGroups;
    var paths := KnownPaths(m, lines);
    var index := LastInto(paths, station);
    LastIntoEnds(paths, station);
    var occ1 := if station > 0 && now > 0 then FreeStation(m, occ, now, agv) else occ;
    ReleaseLinesHolds(m, occ1, paths, index + 1, index, agv);
    assert Arrived(m, occ, agv, now, lines, station) == ReleaseLines(m, occ1, paths, index + 1, index, agv);
    assert forall x :: Owner(occ1, x) == if Owner(occ, x) == agv && station > 0 && x == now > 0 then 0 else Owner(occ, x);
    assert forall l :: Holders(occ1, l) == Holders(occ, l);
  }

  /** An arrival on the way keeps the goal. */
  lemma GoalSurvivesArrival(net: Network, planned: Occupancy, qu: Query, route: seq<int>, occ: Occupancy, agv: int,
                            now: int, station: int)
    requires Loaded(net) && IsRoute(net, planned, qu, route) && GoalOnlyAtEnd(net.m, route, qu.end)
    requires agv > 0 && now != qu.end && station != qu.end && qu.start != qu.end
    requires Owner(occ, qu.end) == agv
    ensures Owner(Arrived(net.m, occ, agv, now, route, station), qu.end) == agv
  {
    hide Loaded, IsRoute, KnownPaths, LastInto, Arrived, Owner, Holders, PathById;
    RoutePaths(net, planned, qu, route);
    ArrivedHolds(net.m, occ, agv, now, route, station);
    var paths := KnownPaths(net.m, route);
    var index := LastInto(paths, station);
    LastIntoEnds(paths, station);
    assert forall k :: 0 <= k < |paths| - 1 ==> PathById(net.m, route[k]) == Some(paths[k]);
    GoalNotPassed(paths, index, qu.start, qu.end);
  }

  lemma GoalNotPassed(paths: seq<MapPath>, index: int, start: int, goal: int)
    requires |paths| > 0 && paths[0].start == start != goal && -1 <= index < |paths| - 1
    requires forall i :: 0 <= i < |paths| - 1 ==> paths[i].end == paths[i + 1].start
    requires forall i :: 0 <= i < |paths| - 1 ==> paths[i].end != goal
    ensures !Passed(paths, index + 1, index, goal)
  {
    forall i | 0 <= i < |paths| ensures paths[i].start != goal {
      if i > 0 {
        assert paths[i - 1].end == paths[i - 1 + 1].start;
      }
    }
  }

  lemma LastIntoEnds(paths: seq<MapPath>, station: int)
    ensures var r := LastInto(paths, station);
      -1 <= r < |paths| && (r >= 0 ==> paths[r].end == station) && forall k :: r < k < |paths| ==> paths[k].end != station
  {}

  /** A route of lines that are all different: arriving at the end of line `i` keeps every line ahead if
      and only if no line ahead ends at the same station; otherwise lines are given back that are yet
      to be driven. */
  lemma LinesAheadIff(net: Network, planned: Occupancy, qu: Query, route: seq<int>, occ: Occupancy, agv: int,
                      now: int, i: nat)
    requires Loaded(net) && IsRoute(net, planned, qu, route) && agv > 0 && i < |route|
    requires forall j, k :: 0 <= j < k < |route| ==> route[j] != route[k]
    requires forall j :: i < j < |route| ==> agv in Holders(occ, route[j])
    ensures PathById(net.m, route[i]).Some?
    ensures var station := PathById(net.m, route[i]).value.end;
      (forall j :: i < j < |route| ==> agv in Holders(Arrived(net.m, occ, agv, now, route, station), route[j]))
      <==> forall j :: i < j < |route| && PathById(net.m, route[j]).Some? ==> PathById(net.m, route[j]).value.end != station
  {
    hide Loaded, IsRoute, KnownPaths, LastInto, Arrived, Owner, Holders, PathById, Passed;
    RoutePaths(net, planned, qu, route);
    var paths := KnownPaths(net.m, route);
    var station := paths[i].end;
    ArrivedHolds(net.m, occ, agv, now, route, station);
    var index := LastInto(paths, station);
    LastIntoEnds(paths, station);
    assert index >= i;
    if index > i {
      assert PathById(net.m, route[index]) == Some(paths[index]);
      assert Driven(paths, index + 1, route[index]);
    } else {
      forall j | i < j < |route| ensures !Driven(paths, index + 1, route[j]) {
        assert forall k :: 0 <= k < index + 1 ==> paths[k].id == route[k];
      }
      assert forall j :: i < j < |route| ==> PathById(net.m, route[j]) == Some(paths[j]);
    }
  }

  /** The reservation system, the station field of one driving vehicle, and how many lines of its route
      it has driven. */
  datatype Drive = Drive(traffic: Traffic.State, now: int, driven: nat)

  /** Between the dispatch and the goal: anything else in the system, or the vehicle arrives at or leaves
      a station on its way: the start (0), or the end of the first, second, ... line but the last. */
  datatype Event = Elsewhere(step: Traffic.Step) | Arrive(nth: nat) | Leave(nth: nat)

  function StationOf(m: seq<Spirit>, qu: Query, route: seq<int>, nth: nat): int
    requires nth <= |route|
  {
    if nth == 0 || PathById(m, route[nth - 1]).None? then qu.start else PathById(m, route[nth - 1]).value.end
  }

  ghost predicate Drives(net: Network, qu: Query, route: seq<int>, agv: int, d: Drive, e: Event, d': Drive) {
    match e
    case Elsewhere(step) =>
      && Traffic.Next(net, d.traffic, step, d'.traffic) && d'.now == d.now && d'.driven == d.driven
      && (step.ReleaseStation? || step.ReleaseLine? ==> step.who != agv)
    case Arrive(n) =>
      && n < |route|
      && var x := StationOf(net.m, qu, route, n);
         d' == Drive(d.traffic.(occ := Arrived(net.m, d.traffic.occ, agv, d.now, route, x)), x,
                     if d.driven < n then n else d.driven)
    case Leave(n) =>
      && n < |route|
      && d' == Drive(d.traffic.(occ := FreeStation(net.m, d.traffic.occ, StationOf(net.m, qu, route, n), agv)), 0, d.driven)
  }

  /** The vehicle owns its goal and is not there yet, holds every line it has not driven, and no pending
      plan will take a station from anybody. */
  ghost predicate OnCourse(goal: int, route: seq<int>, agv: int, d: Drive) {
    && Owner(d.traffic.occ, goal) == agv && d.now != goal && Traffic.GoalFree(d.traffic)
    && forall k :: d.driven <= k < |route| ==> agv in Holders(d.traffic.occ, route[k])
  }

  lemma ElsewhereKeeps(net: Network, s: Traffic.State, step: Traffic.Step, s': Traffic.State, goal: int, agv: int)
    requires IsMap(net.m) && Traffic.Next(net, s, step, s') && Traffic.GoalFree(s) && agv > 0
    requires Owner(s.occ, goal) == agv && (step.ReleaseStation? || step.ReleaseLine? ==> step.who != agv)
    ensures Owner(s'.occ, goal) == agv && Traffic.GoalFree(s')
    ensures forall l :: agv in Holders(s.occ, l) ==> agv in Holders(s'.occ, l)
  {
    hide PathAnswer, IsMap, IsPoint;
    Traffic.NoStationStolen(net, s, step, s');
    match step
    case Commit =>
      var p := s.pending.value;
      AddLinesHolds(net.m, AddStation(net.m, s.occ, p.goal, p.agv), p.route, p.agv);
    case _ =>
  }

  /** On a shortest route the last line into the `n`th station is the `n`th line. */
  lemma NthStation(net: Network, occ: Occupancy, qu: Query, route: seq<int>, distance: int, n: nat)
    requires Loaded(net) && IsShortest(net, occ, qu, route, distance) && qu.start != qu.end && n < |route|
    requires forall k :: 0 <= k < |route| ==> LengthOf(net.m, route[k]) > 0
    ensures var x, paths := StationOf(net.m, qu, route, n), KnownPaths(net.m, route);
      && |paths| == |route| && (forall k :: 0 <= k < |route| ==> paths[k].id == route[k])
      && LastInto(paths, x) == n - 1 && x != qu.end
  {
    hide LengthOf, RouteLength, Loaded, IsRoute, PathById, LastInto;
    RoutePaths(net, occ, qu, route);
    var x, paths := StationOf(net.m, qu, route, n), KnownPaths(net.m, route);
    LastIntoEnds(paths, x);
    forall k | n <= k < |paths| ensures paths[k].end != x {
      assert PathById(net.m, route[k]) == Some(paths[k]);
      if n == 0 {
        StartNotEntered(net, occ, qu, route, distance, k);
      } else {
        assert PathById(net.m, route[n - 1]) == Some(paths[n - 1]);
        ShortestNoStationTwice(net, occ, qu, route, distance, n - 1, k);
      }
    }
    assert n > 0 ==> PathById(net.m, route[n - 1]) == Some(paths[n - 1]);
    assert paths[|paths| - 1].end == qu.end;
  }

  /** An arrival at the `n`th station gives back no line behind the `n`th. */
  lemma ArrivalKeepsAhead(net: Network, planned: Occupancy, qu: Query, route: seq<int>, distance: int, occ: Occupancy,
                          agv: int, now: int, n: nat, driven: nat)
    requires Loaded(net) && IsShortest(net, planned, qu, route, distance) && qu.start != qu.end && n < |route|
    requires forall k :: 0 <= k < |route| ==> LengthOf(net.m, route[k]) > 0
    requires agv > 0 && n <= driven && forall k :: driven <= k < |route| ==> agv in Holders(occ, route[k])
    ensures forall k :: driven <= k < |route| ==>
              agv in Holders(Arrived(net.m, occ, agv, now, route, StationOf(net.m, qu, route, n)), route[k])
  {
    hide LengthOf, RouteLength, Loaded, Arrived, Holders, Owner, Passed, IsRoute, LastInto, StationOf, KnownPaths;
    NthStation(net, planned, qu, route, distance, n);
    var x, paths := StationOf(net.m, qu, route, n), KnownPaths(net.m, route);
    ArrivedHolds(net.m, occ, agv, now, route, x);
    forall k | driven <= k < |route| ensures !Driven(paths, n, route[k]) {
      forall j | 0 <= j < n ensures paths[j].id != route[k] {
        ShortestNoLineTwice(net, planned, qu, route, distance, j, k);
      }
    }
  }

  lemma CourseKept(net: Network, planned: Occupancy, qu: Query, route: seq<int>, distance: int, agv: int,
                   d: Drive, e: Event, d': Drive)
    requires Loaded(net) && route != [] && IsShortest(net, planned, qu, route, distance)
    requires forall k :: 0 <= k < |route| ==> LengthOf(net.m, route[k]) > 0
    requires agv > 0 && qu.start != qu.end && qu.end > 0
    requires OnCourse(qu.end, route, agv, d) && Drives(net, qu, route, agv, d, e, d')
    ensures OnCourse(qu.end, route, agv, d')
  {
    hide Loaded, IsRoute, Arrived, Traffic.Next, KnownPaths, PathById, LengthOf, RouteLength, StationOf;
    assert IsMap(net.m) by { LoadedIsMap(net); }
    match e
    case Elsewhere(step) => ElsewhereKeeps(net, d.traffic, step, d'.traffic, qu.end, agv);
    case Arrive(n) =>
      ArrivalOnCourse(net, planned, qu, route, distance, agv, d, n, d');
    case Leave(n) =>
      NthStation(net, planned, qu, route, distance, n);
  }

  lemma ArrivalOnCourse(net: Network, planned: Occupancy, qu: Query, route: seq<int>, distance: int, agv: int,
                        d: Drive, n: nat, d': Drive)
    requires Loaded(net) && route != [] && IsShortest(net, planned, qu, route, distance)
    requires forall k :: 0 <= k < |route| ==> LengthOf(net.m, route[k]) > 0
    requires agv > 0 && qu.start != qu.end && qu.end > 0
    requires OnCourse(qu.end, route, agv, d) && Drives(net, qu, route, agv, d, Arrive(n), d')
    ensures OnCourse(qu.end, route, agv, d')
  {
    ShortestMeetsGoalOnceOn(net, planned, qu, route, distance);
    hide Loaded, IsRoute, Arrived, KnownPaths, PathById, LengthOf, RouteLength, StationOf, GoalOnlyAtEnd, IsShortest;
    var occ, x := d.traffic.occ, StationOf(net.m, qu, route, n);
    NthStation(net, planned, qu, route, distance, n);
    GoalSurvivesArrival(net, planned, qu, route, occ, agv, d.now, x);
    ArrivalKeepsAhead(net, planned, qu, route, distance, occ, agv, d.now, n, if d.driven < n then n else d.driven);
    ArrivedHolds(net.m, occ, agv, d.now, route, x);
  }

  lemma ShortestMeetsGoalOnceOn(net: Network, occ: Occupancy, qu: Query, route: seq<int>, distance: int)
    requires Loaded(net) && route != [] && IsShortest(net, occ, qu, route, distance)
    requires forall i :: 0 <= i < |route| ==> LengthOf(net.m, route[i]) > 0
    ensures GoalOnlyAtEnd(net.m, route, qu.end) && IsRoute(net, occ, qu, route)
  {
    ShortestMeetsGoalOnce(net, occ, qu, route, distance);
  }

  /** From the dispatch to the goal.  However the rest of the system moves in between and whatever the
      vehicle releases on its way, it keeps the goal and every line it has not driven yet; and when it
      arrives at the goal it holds none of the route's lines and, of its stations, exactly the goal. */
  lemma {:induction false} DispatchedRun(net: Network, planned: Occupancy, qu: Query, route: seq<int>, distance: int,
                                         reserved: Occupancy, agv: int, drives: seq<Drive>, events: seq<Event>)
    requires Loaded(net) && route != [] && IsShortest(net, planned, qu, route, distance)
    requires forall i :: 0 <= i < |route| ==> LengthOf(net.m, route[i]) > 0
    requires agv > 0 && qu.start != qu.end && qu.end > 0
    requires |drives| == |events| + 1 && drives[0].now != qu.end && drives[0].driven == 0
    requires drives[0].traffic == Traffic.State(Reserve(net.m, reserved, agv, qu.end, route), None)
    requires forall i :: 0 <= i < |events| ==> Drives(net, qu, route, agv, drives[i], events[i], drives[i + 1])
    ensures forall i :: 0 <= i < |drives| ==> Owner(drives[i].traffic.occ, qu.end) == agv
    ensures forall i, k :: 0 <= i < |drives| && drives[i].driven <= k < |route| ==>
              agv in Holders(drives[i].traffic.occ, route[k])
    ensures var last := drives[|events|];
      var after := Arrived(net.m, last.traffic.occ, agv, last.now, route, qu.end);
      && (forall l :: l in route ==> agv !in Holders(after, l))
      && Owner(after, qu.end) == agv
      && (forall i :: 0 <= i < |route| ==>
           var p := PathById(net.m, route[i]).value;
           (Owner(after, p.start) == agv <==> p.start == qu.end) && (Owner(after, p.end) == agv <==> p.end == qu.end))
  {
    assert forall i :: 0 <= i < |route| ==> PathById(net.m, route[i]).Some? by { RouteKnown(net, planned, qu, route, distance); }
    hide *;
    AlwaysOnCourse(net, planned, qu, route, distance, reserved, agv, drives, events);
    forall i | 0 <= i < |drives|
      ensures Owner(drives[i].traffic.occ, qu.end) == agv && drives[i].now != qu.end
      ensures forall k :: drives[i].driven <= k < |route| ==> agv in Holders(drives[i].traffic.occ, route[k])
    {
      OnCourseMeans(qu.end, route, agv, drives[i]);
    }
    var last := drives[|events|];
    DispatchedArrival(net, planned, qu, route, distance, last.traffic.occ, agv, last.now);
  }

  lemma {:induction false} AlwaysOnCourse(net: Network, planned: Occupancy, qu: Query, route: seq<int>, distance: int,
                                          reserved: Occupancy, agv: int, drives: seq<Drive>, events: seq<Event>)
    requires Loaded(net) && route != [] && IsShortest(net, planned, qu, route, distance)
    requires forall i :: 0 <= i < |route| ==> LengthOf(net.m, route[i]) > 0
    requires agv > 0 && qu.start != qu.end && qu.end > 0
    requires |drives| == |events| + 1 && drives[0].now != qu.end && drives[0].driven == 0
    requires drives[0].traffic == Traffic.State(Reserve(net.m, reserved, agv, qu.end, route), None)
    requires forall i :: 0 <= i < |events| ==> Drives(net, qu, route, agv, drives[i], events[i], drives[i + 1])
    ensures forall i :: 0 <= i < |drives| ==> OnCourse(qu.end, route, agv, drives[i])
  {
    DispatchedOnCourse(net, reserved, qu, route, agv, drives[0]);
    hide *;
    for i := 0 to |events|
      invariant forall k :: 0 <= k <= i ==> OnCourse(qu.end, route, agv, drives[k])
    {
      assert Drives(net, qu, route, agv, drives[i], events[i], drives[i + 1]);
      CourseKept(net, planned, qu, route, distance, agv, drives[i], events[i], drives[i + 1]);
    }
  }

  lemma RouteKnown(net: Network, occ: Occupancy, qu: Query, route: seq<int>, distance: int)
    requires Loaded(net) && route != [] && IsShortest(net, occ, qu, route, distance)
    ensures forall i :: 0 <= i < |route| ==> PathById(net.m, route[i]).Some?
  {
    hide Loaded, PathById;
    RouteConnects(net, occ, qu, route);
  }

  lemma OnCourseMeans(goal: int, route: seq<int>, agv: int, d: Drive)
    requires OnCourse(goal, route, agv, d)
    ensures Owner(d.traffic.occ, goal) == agv && d.now != goal
    ensures forall k :: d.driven <= k < |route| ==> agv in Holders(d.traffic.occ, route[k])
  {}

  lemma DispatchedOnCourse(net: Network, reserved: Occupancy, qu: Query, route: seq<int>, agv: int, d: Drive)
    requires d.traffic == Traffic.State(Reserve(net.m, reserved, agv, qu.end, route), None) && d.now != qu.end
    ensures OnCourse(qu.end, route, agv, d)
  {
    AddLinesHolds(net.m, AddStation(net.m, reserved, qu.end, agv), route, agv);
  }

  // ---------------------------------------------------------------- the vehicle

  /** The blocks of the spirit, as new facts of a vehicle. */
  function EntryFacts(m: seq<Spirit>, spirit: int): set<(int, int)> {
    set i | i in SpiritBlocks(m, spirit) :: (i, spirit)
  }

  /** The facts after: those before and the entered ones of this vehicle, without the facts it had for
      the spirits it gave back. */
  ghost predicate Exchanged(m: seq<Spirit>, before: seq<Blocks.BBlock>, after: seq<Blocks.BBlock>, agv: int,
                            entered: set<(int, int)>, given: set<int>) {
    forall b, v, s ::
      Blocks.HasFact(after, b, v, s) <==>
        && (Blocks.HasFact(before, b, v, s) || (v == agv && (b, s) in entered))
        && !(v == agv && s in given && b in SpiritBlocks(m, s))
  }

  lemma OneMoreGivenBack(m: seq<Spirit>, a: seq<Blocks.BBlock>, b: seq<Blocks.BBlock>, c: seq<Blocks.BBlock>, agv: int,
                         entered: set<(int, int)>, given: set<int>, spirit: int)
    requires Exchanged(m, a, b, agv, entered, given) && Blocks.Freed(b, c, SpiritBlocks(m, spirit), agv, spirit)
    ensures Exchanged(m, a, c, agv, entered, given + {spirit})
  {
    hide Blocks.HasFact, SpiritBlocks;
  }

  /** A vehicle that only touches its own facts, and enters blocks only when they are free for it,
      keeps the blocks exclusive. */
  lemma ExchangeKeepsExclusive(m: seq<Spirit>, a: seq<Blocks.BBlock>, b: seq<Blocks.BBlock>, agv: int,
                               entered: set<(int, int)>, given: set<int>)
    requires Blocks.Exclusive(a) && Exchanged(m, a, b, agv, entered, given)
    requires forall e :: e in entered ==> Blocks.FreeFor(a, e.0, agv)
    ensures Blocks.Exclusive(b)
  {
    hide Blocks.HasFact, SpiritBlocks;
    forall x, v, s, w, t | Blocks.HasFact(b, x, v, s) && Blocks.HasFact(b, x, w, t) ensures v == w {
      if v == agv && !Blocks.HasFact(a, x, v, s) {
        assert (x, s) in entered && Blocks.FreeFor(a, (x, s).0, agv);
      }
      if w == agv && !Blocks.HasFact(a, x, w, t) {
        assert (x, t) in entered && Blocks.FreeFor(a, (x, t).0, agv);
      }
    }
  }

  /** The blocks a vehicle needs to drive a line. */
  function WishOf(m: seq<Spirit>, agv: int, path: MapPath): Blocks.Wish {
    Blocks.Wish(agv, SpiritBlocks(m, path.id), path.id, SpiritBlocks(m, path.end), path.end)
  }

  /** What a round of the waiting loop needs and enters, in terms of the blocks of the map. */
  lemma RoundMeans(m: seq<Spirit>, before: seq<Blocks.BBlock>, agv: int, path: MapPath, canGo: bool, after: seq<Blocks.BBlock>)
    requires Blocks.Round(before, WishOf(m, agv, path), canGo, after)
    ensures canGo <==> !Occupied(m, before, path.id, agv) && !Occupied(m, before, path.end, agv)
    ensures forall b, v, s ::
              Blocks.HasFact(after, b, v, s) <==>
                || Blocks.HasFact(before, b, v, s)
                || (v == agv && s == path.id && !Occupied(m, before, path.id, agv)
                    && exists g :: Block(g) in m && g.id == b && path.id in g.spirits)
                || (v == agv && s == path.end && canGo && exists g :: Block(g) in m && g.id == b && path.end in g.spirits)
  {
    OccupiedIff(m, before, path.id, agv);
    OccupiedIff(m, before, path.end, agv);
    BlocksListed(m, path.id);
    BlocksListed(m, path.end);
    hide Occupied, Blocks.AllFreeFor, Blocks.HasFact, SpiritBlocks;
  }

  lemma BlocksListed(m: seq<Spirit>, spirit: int)
    ensures forall b :: b in SpiritBlocks(m, spirit) <==> exists g :: Block(g) in m && g.id == b && spirit in g.spirits
  {
    forall b ensures b in SpiritBlocks(m, spirit) <==> exists g :: Block(g) in m && g.id == b && spirit in g.spirits {
      if b in SpiritBlocks(m, spirit) {
        var g :| g in BlocksOf(m) && g.id == b && spirit in g.spirits;
        assert Block(g) in m;
      }
    }
  }

  class Agv {
    const id: int
    var lastStation: int
    var nowStation: int
    var nextStation: int
    var executeStations: seq<int>
    var executePaths: seq<int>
    var paused: bool

    constructor (id: int)
      ensures this.id == id && lastStation == nowStation == nextStation == 0
    {
      this.id := id;
      lastStation, nowStation, nextStation := 0, 0, 0;
      executeStations, executePaths, paused := [], [], false;
    }

    /** The part of `excutePath` that loads a route. */
    method LoadPath(mm: MapManager, lines: seq<int>)
      modifies this`executePaths, this`executeStations
      ensures executePaths == lines
      ensures |executeStations| == |KnownPaths(mm.onemap.elements, lines)|
      ensures forall i :: 0 <= i < |executeStations| ==>
                executeStations[i] == KnownPaths(mm.onemap.elements, lines)[i].end
    {
      executePaths, executeStations := lines, [];
      for i := 0 to |lines|
        invariant executePaths == lines
        invariant |executeStations| == |KnownPaths(mm.onemap.elements, lines[..i])|
        invariant forall k :: 0 <= k < |executeStations| ==>
                    executeStations[k] == KnownPaths(mm.onemap.elements, lines[..i])[k].end
      {
        assert lines[..i + 1][..i] == lines[..i];
        var path := mm.onemap.GetPathById(lines[i]);
        if path.Some? {
          executeStations := executeStations + [path.value.end];
        }
      }
      assert lines[..|lines|] == lines;
    }

    method GetBlocks(mm: MapManager, spirit: int) returns (ids: seq<int>)
      ensures ids == SpiritBlocks(mm.onemap.elements, spirit)
    {
      var blocks := mm.onemap.GetBlocks();
      ids := [];
      for i := 0 to |blocks|
        invariant ids == BlocksWith(blocks[..i], spirit)
      {
        assert blocks[..i + 1][..i] == blocks[..i];
        if spirit in blocks[i].spirits {
          ids := ids + [blocks[i].id];
        }
      }
      assert blocks[..|blocks|] == blocks;
    }

    /** One round of the loop in `goStation` that waits for the blocks of a line and of its end. */
    method TryGo(mm: MapManager, bm: Blocks.BlockManager, path: MapPath) returns (canGo: bool)
      requires bm.Valid()
      modifies bm
      ensures bm.Valid() && Blocks.Round(old(bm.bblocks), WishOf(mm.onemap.elements, id, path), canGo, bm.bblocks)
      ensures var m := mm.onemap.elements;
        && (canGo <==> !old(Occupied(m, bm.bblocks, path.id, id)) && !old(Occupied(m, bm.bblocks, path.end, id)))
        && forall b, v, s ::
             Blocks.HasFact(bm.bblocks, b, v, s) <==>
               || old(Blocks.HasFact(bm.bblocks, b, v, s))
               || (v == id && s == path.id && !old(Occupied(m, bm.bblocks, path.id, id))
                   && exists g :: Block(g) in m && g.id == b && path.id in g.spirits)
               || (v == id && s == path.end && canGo && exists g :: Block(g) in m && g.id == b && path.end in g.spirits)
      ensures old(Blocks.Exclusive(bm.bblocks)) ==> Blocks.Exclusive(bm.bblocks)
    {
      hide Blocks.HasFact, Blocks.AllFreeFor, Blocks.Unique, Occupied;
      ghost var before, w := bm.bblocks, WishOf(mm.onemap.elements, id, path);
      canGo := true;
      var bs := GetBlocks(mm, path.id);
      var entered := bm.TryAddBlockOccu(bs, id, path.id);
      if !entered {
        canGo := false;
      } else {
        Blocks.OwnFactsDoNotBlock(before, bm.bblocks, bs, id, path.id, w.endIds);
      }
      if canGo {
        var bs2 := GetBlocks(mm, path.end);
        entered := bm.TryAddBlockOccu(bs2, id, path.end);
        if !entered {
          canGo := false;
        }
      }
      assert Blocks.Round(before, w, canGo, bm.bblocks);
      RoundMeans(mm.onemap.elements, before, id, path, canGo, bm.bblocks);
      if Blocks.Exclusive(before) {
        Blocks.RoundKeepsExclusive(before, w, canGo, bm.bblocks);
      }
    }

    method GetKnownPaths(mm: MapManager) returns (paths: seq<MapPath>)
      ensures paths == KnownPaths(mm.onemap.elements, executePaths)
    {
      paths := [];
      for i := 0 to |executePaths|
        invariant paths == KnownPaths(mm.onemap.elements, executePaths[..i])
      {
        assert executePaths[..i + 1][..i] == executePaths[..i];
        var path := mm.onemap.GetPathById(executePaths[i]);
        if path.Some? {
          paths := paths + [path.value];
        }
      }
      assert executePaths[..|executePaths|] == executePaths;
    }

    method FindLastInto(paths: seq<MapPath>, station: int) returns (index: int)
      ensures index == LastInto(paths, station)
    {
      index := -1;
      for i := 0 to |paths|
        invariant index == LastInto(paths[..i], station)
      {
        assert paths[..i + 1][..i] == paths[..i];
        if paths[i].end == station {
          index := i;
        }
      }
      assert paths[..|paths|] == paths;
    }

    /** Gives back a station: its reservation and its blocks. */
    method GiveBackStation(mm: MapManager, bm: Blocks.BlockManager, station: int, ghost facts: seq<Blocks.BBlock>,
                           ghost entered: set<(int, int)>, ghost given: set<int>)
      requires bm.Valid() && Exchanged(mm.onemap.elements, facts, bm.bblocks, id, entered, given)
      modifies mm`stationOccu, mm`groupOccu, bm
      ensures mm.Occ() == FreeStation(mm.onemap.elements, old(mm.Occ()), station, id)
      ensures bm.Valid() && Exchanged(mm.onemap.elements, facts, bm.bblocks, id, entered, given + {station})
    {
      hide Exchanged, Blocks.Freed, Blocks.Unique, FreeStation, SpiritBlocks;
      mm.FreeOccuStation(station, id);
      var ids := GetBlocks(mm, station);
      ghost var before := bm.bblocks;
      bm.FreeBlockOccu(ids, id, station);
      OneMoreGivenBack(mm.onemap.elements, facts, before, bm.bblocks, id, entered, given, station);
    }

    /** The release loop of `onArriveStation`: every line up to the arriving one. */
    method ReleaseDriven(mm: MapManager, bm: Blocks.BlockManager, station: int, ghost facts: seq<Blocks.BBlock>,
                         ghost entered: set<(int, int)>, ghost given: set<int>)
      requires bm.Valid() && Exchanged(mm.onemap.elements, facts, bm.bblocks, id, entered, given)
      modifies mm`stationOccu, mm`lineOccu, mm`groupOccu, bm
      ensures var paths := KnownPaths(mm.onemap.elements, executePaths);
        var index := LastInto(paths, station);
        && mm.Occ() == ReleaseLines(mm.onemap.elements, old(mm.Occ()), paths, index + 1, index, id)
        && Exchanged(mm.onemap.elements, facts, bm.bblocks, id, entered, given + GivenBack(paths, index + 1, index))
      ensures bm.Valid()
    {
      hide Exchanged, ReleaseLine, KnownPaths, LastInto, Blocks.Unique;
      var paths := GetKnownPaths(mm);
      var index := FindLastInto(paths, station);
      LastIntoEnds(paths, station);
      assert given + GivenBack(paths, 0, index) == given;
      for i := 0 to index + 1
        invariant mm.Occ() == ReleaseLines(mm.onemap.elements, old(mm.Occ()), paths, i, index, id)
        invariant bm.Valid()
        invariant Exchanged(mm.onemap.elements, facts, bm.bblocks, id, entered, given + GivenBack(paths, i, index))
      {
        ghost var so := given + GivenBack(paths, i, index);
        ReleaseOne(mm, bm, paths[i], i == index, facts, entered, so);
        ghost var p := paths[i];
        assert so + {p.start} + (if i == index then {} else {p.end}) + {p.id} == given + GivenBack(paths, i + 1, index);
      }
    }

    /** The body of the release loop. */
    method ReleaseOne(mm: MapManager, bm: Blocks.BlockManager, p: MapPath, arrives: bool,
                      ghost facts: seq<Blocks.BBlock>, ghost entered: set<(int, int)>, ghost given: set<int>)
      requires bm.Valid() && Exchanged(mm.onemap.elements, facts, bm.bblocks, id, entered, given)
      modifies mm`stationOccu, mm`lineOccu, mm`groupOccu, bm
      ensures mm.Occ() == ReleaseLine(mm.onemap.elements, old(mm.Occ()), p, arrives, id)
      ensures bm.Valid() && Exchanged(mm.onemap.elements, facts, bm.bblocks, id, entered,
                                      given + {p.start} + (if arrives then {} else {p.end}) + {p.id})
    {
      hide Exchanged, FreeStation, FreeLine, Blocks.Freed, Blocks.Unique, SpiritBlocks;
      GiveBackStation(mm, bm, p.start, facts, entered, given);
      ghost var so := given + {p.start};
      if !arrives {
        GiveBackStation(mm, bm, p.end, facts, entered, so);
        so := so + {p.end};
      } else {
        assert so + {} == so;
      }
      mm.FreeOccuLine(p.id, id);
      var ids := GetBlocks(mm, p.id);
      ghost var before := bm.bblocks;
      bm.FreeBlockOccu(ids, id, p.id);
      OneMoreGivenBack(mm.onemap.elements, facts, before, bm.bblocks, id, entered, so, p.id);
    }

    /** The station after the first occurrence of `station` in the stations to visit. */
    method FindNext(station: int)
      modifies this`nextStation
      ensures NextIs(executeStations, station, old(nextStation), nextStation)
    {
      for i := 0 to |executeStations|
        invariant nextStation == old(nextStation) && station !in executeStations[..i]
      {
        if executeStations[i] == station {
          if i + 1 < |executeStations| {
            nextStation := executeStations[i + 1];
          } else {
            nextStation := 0;
          }
              OnlyFirst(executeStations, station, i);
          return;
        }
      }
    }

    /** `onArriveStation`.  At an unknown station nothing happens.  Otherwise the blocks of the station
        are entered when they are all free, everything behind is given back, and the vehicle stops when
        they were not free or a block of the line ahead is taken. */
    method OnArriveStation(mm: MapManager, bm: Blocks.BlockManager, station: int)
      requires IsMap(mm.onemap.elements) && bm.Valid()
      modifies this`lastStation, this`nowStation, this`nextStation, this`paused
      modifies mm`stationOccu, mm`lineOccu, mm`groupOccu, bm
      ensures PointById(mm.onemap.elements, station).None? ==>
                unchanged(this) && mm.Occ() == old(mm.Occ()) && bm.bblocks == old(bm.bblocks)
      ensures PointById(mm.onemap.elements, station).Some? ==>
                && mm.Occ() == Arrived(mm.onemap.elements, old(mm.Occ()), id, old(nowStation), executePaths, station)
                && nowStation == station
                && lastStation == (if old(nowStation) > 0 then old(nowStation) else old(lastStation))
      ensures PointById(mm.onemap.elements, station).Some? ==>
                forall i {:trigger executeStations[..i]} |
                  0 <= i < |executeStations| && executeStations[i] == station && station !in executeStations[..i] ::
                  nextStation == if i + 1 < |executeStations| then executeStations[i + 1] else 0
      ensures PointById(mm.onemap.elements, station).Some? && station !in executeStations ==> nextStation == old(nextStation)
      ensures PointById(mm.onemap.elements, station).Some? ==>
                var m := mm.onemap.elements;
                var free := !old(Occupied(m, bm.bblocks, station, id));
                && Exchanged(m, old(bm.bblocks), bm.bblocks, id, if free then EntryFacts(m, station) else {},
                             GivenAtArrival(m, old(nowStation), executePaths, station))
                && (paused <==> old(paused) || !free || BlockedAhead(m, bm.bblocks, executeStations, station, id))
      ensures bm.Valid() && (old(Blocks.Exclusive(bm.bblocks)) ==> Blocks.Exclusive(bm.bblocks))
    {
      hide Exchanged, IsMap, Arrived, GivenAtArrival, EntryFacts, BlockedAhead, SpiritBlocks, Occupied;
      hide Blocks.Added, Blocks.AllFreeFor, Blocks.Exclusive, Blocks.Unique, Blocks.FreeFor;
      var point := mm.onemap.GetPointById(station);
      if point.None? {
        return;
      }
      StationPositive(mm.onemap.elements, station);
      var ids := GetBlocks(mm, station);
      ghost var m, facts := mm.onemap.elements, bm.bblocks;
      OccupiedIff(m, facts, station, id);
      var free := bm.TryAddBlockOccu(ids, id, station);
      ghost var entered := if free then EntryFacts(m, station) else {};
      StationEntered(m, facts, bm.bblocks, id, station, free, entered);
      Move(mm, bm, station, facts, entered);
      EntryKeepsExclusive(m, facts, bm.bblocks, id, station, entered, GivenAtArrival(m, old(nowStation), executePaths, station));
      if free {
        CheckAhead(mm, bm);
      } else {
        paused := true;
      }
    }

    /** The station fields move on and everything behind is given back. */
    method Move(mm: MapManager, bm: Blocks.BlockManager, station: int, ghost facts: seq<Blocks.BBlock>,
                ghost entered: set<(int, int)>)
      requires station > 0 && bm.Valid() && Exchanged(mm.onemap.elements, facts, bm.bblocks, id, entered, {})
      modifies this`lastStation, this`nowStation, this`nextStation
      modifies mm`stationOccu, mm`lineOccu, mm`groupOccu, bm
      ensures mm.Occ() == Arrived(mm.onemap.elements, old(mm.Occ()), id, old(nowStation), executePaths, station)
      ensures nowStation == station
      ensures lastStation == if old(nowStation) > 0 then old(nowStation) else old(lastStation)
      ensures NextIs(executeStations, station, old(nextStation), nextStation)
      ensures bm.Valid()
      ensures Exchanged(mm.onemap.elements, facts, bm.bblocks, id, entered,
                        GivenAtArrival(mm.onemap.elements, old(nowStation), executePaths, station))
    {
      hide Exchanged, FreeStation, ReleaseLines, KnownPaths, LastInto, Blocks.Unique, GivenBack, NextIs;
      ghost var given := {};
      if nowStation > 0 {
        lastStation := nowStation;
        GiveBackStation(mm, bm, lastStation, facts, entered, given);
        given := {} + {lastStation};
        assert given == {old(nowStation)};
      }
      nowStation := station;
      FindNext(station);
      ReleaseDriven(mm, bm, station, facts, entered, given);
    }

    /** The first occurrence of the station in the stations to visit, or their number. */
    method IndexOf(station: int) returns (i: nat)
      ensures i <= |executeStations| && station !in executeStations[..i]
      ensures i < |executeStations| ==> executeStations[i] == station
    {
      i := 0;
      while i < |executeStations| && executeStations[i] != station
        invariant 0 <= i <= |executeStations| && station !in executeStations[..i]
      {
        i := i + 1;
      }
    }

    /** Pauses the vehicle when a block of the line ahead is occupied by another vehicle. */
    method CheckAhead(mm: MapManager, bm: Blocks.BlockManager)
      requires bm.Valid()
      modifies this`paused
      ensures paused <==> old(paused) || BlockedAhead(mm.onemap.elements, bm.bblocks, executeStations, nowStation, id)
    {
      hide Blocks.AllFreeFor, FirstBetween, Occupied;
      ghost var m := mm.onemap.elements;
      var i := IndexOf(nowStation);
      OnlyFirst(executeStations, nowStation, i);
      if i + 1 < |executeStations| {
        var path := mm.onemap.GetPathByStartEnd(nowStation, executeStations[i + 1]);
        NoneBetween(m, nowStation, executeStations[i + 1]);
        if path.Some? {
          ghost var k :| 0 <= k < |m| && FirstBetween(m, nowStation, executeStations[i + 1], k) && m[k] == Path(path.value);
          OneBetween(m, nowStation, executeStations[i + 1], k);
          OccupiedIff(m, bm.bblocks, path.value.id, id);
          var ids := GetBlocks(mm, path.value.id);
          var free := bm.BlockPassable(ids, id);
          if !free {
            assert Ahead(m, executeStations, nowStation, i, k);
            paused := true;
          }
        }
      }
    }

    /** `onLeaveStation`.  The blocks of the station are given back and those of the line ahead are
        entered when they are all free; the vehicle stops when they were not, or when a block of the
        next station is taken.  That station is looked up after `nowStation` was set to 0, so it is found
        only for a line that starts at station 0. */
    method OnLeaveStation(mm: MapManager, bm: Blocks.BlockManager, station: int)
      requires bm.Valid()
      modifies this`lastStation, this`nowStation, this`nextStation, this`paused
      modifies mm`stationOccu, mm`groupOccu, bm
      ensures mm.Occ() == FreeStation(mm.onemap.elements, old(mm.Occ()), station, id)
      ensures nowStation == 0 && lastStation == station
      ensures nextStation == FirstFrom(KnownPaths(mm.onemap.elements, executePaths), 0)
      ensures var m := mm.onemap.elements;
        forall k :: FirstBetween(m, station, old(nextStation), k) ==>
          var free := !old(Occupied(m, bm.bblocks, m[k].path.id, id));
          && Left(m, old(bm.bblocks), bm.bblocks, id, station, if free then Some(m[k].path) else None)
          && (paused <==> old(paused) || !free || StationTaken(m, bm.bblocks, nextStation, id))
      ensures var m := mm.onemap.elements;
        (forall k :: !FirstBetween(m, station, old(nextStation), k)) ==>
          && Left(m, old(bm.bblocks), bm.bblocks, id, station, None)
          && (paused <==> old(paused) || StationTaken(m, bm.bblocks, nextStation, id))
      ensures bm.Valid() && (old(Blocks.Exclusive(bm.bblocks)) ==> Blocks.Exclusive(bm.bblocks))
    {
      hide Blocks.AllFreeFor, Blocks.Exclusive, Blocks.Unique, FreeStation, Blocks.Added, Blocks.Freed;
      hide Left, SpiritBlocks, FirstFrom, KnownPaths, FirstBetween, Occupied, StationTaken;
      var ids := GetBlocks(mm, station);
      ghost var m, facts := mm.onemap.elements, bm.bblocks;
      bm.FreeBlockOccu(ids, id, station);
      ghost var before := bm.bblocks;
      FreedKeepsExclusive(facts, before, ids, id, station);
      var nextPath := mm.onemap.GetPathByStartEnd(station, nextStation);
      NoneBetween(m, station, nextStation);
      var entered := true;
      if nextPath.Some? {
        ghost var k :| 0 <= k < |m| && FirstBetween(m, station, nextStation, k) && m[k] == Path(nextPath.value);
        OneBetween(m, station, nextStation, k);
        OccupiedIff(m, facts, nextPath.value.id, id);
        var lineIds := GetBlocks(mm, nextPath.value.id);
        entered := bm.TryAddBlockOccu(lineIds, id, nextPath.value.id);
        AddedKeepsExclusive(before, bm.bblocks, lineIds, id, nextPath.value.id, entered);
        FreedIsNoObstacle(facts, before, ids, id, station, lineIds);
      }
      LeftIs(m, facts, before, bm.bblocks, id, station, nextPath, entered);
      nowStation := 0;
      lastStation := station;
      mm.FreeOccuStation(station, id);
      nextStation := FindFirstFrom(mm, nowStation);
      CheckStation(mm, bm, entered);
    }

    /** Pauses the vehicle when the line ahead was not entered, or a block of the next station is occupied by
        another vehicle. */
    method CheckStation(mm: MapManager, bm: Blocks.BlockManager, entered: bool)
      requires bm.Valid()
      modifies this`paused
      ensures paused <==> old(paused) || !entered || StationTaken(mm.onemap.elements, bm.bblocks, nextStation, id)
    {
      hide Blocks.AllFreeFor, Blocks.Unique, SpiritBlocks, Occupied, PointById;
      if entered {
        var point := mm.onemap.GetPointById(nextStation);
        if point.Some? {
          PointByIdFinds(mm.onemap.elements, nextStation);
          OccupiedIff(mm.onemap.elements, bm.bblocks, nextStation, id);
          var pointIds := GetBlocks(mm, point.value.id);
          var free := bm.BlockPassable(pointIds, id);
          if !free {
            paused := true;
          }
        }
      } else {
        paused := true;
      }
    }

    method FindFirstFrom(mm: MapManager, station: int) returns (next: int)
      ensures next == FirstFrom(KnownPaths(mm.onemap.elements, executePaths), station)
    {
      var paths := GetKnownPaths(mm);
      for i := 0 to |paths|
        invariant FirstFrom(paths, station) == FirstFrom(paths[i..], station)
      {
        if paths[i].start == station {
          return paths[i].end;
        }
      }
      return 0;
    }
  }

  /** Place `k` of the map holds the line the vehicle looks at: the first one from where it is to the
      station after the first occurrence of this one. */
  ghost predicate Ahead(m: seq<Spirit>, stations: seq<int>, now: int, i: int, k: int) {
    && 0 <= i < |stations| - 1 && stations[i] == now && now !in stations[..i]
    && FirstBetween(m, now, stations[i + 1], k)
  }

  /** A block of that line is occupied by another vehicle. */
  ghost predicate BlockedAhead(m: seq<Spirit>, blocks: seq<Blocks.BBlock>, stations: seq<int>, now: int, agv: int) {
    exists i, k :: Ahead(m, stations, now, i, k) && Occupied(m, blocks, m[k].path.id, agv)
  }

  lemma OnlyFirst(stations: seq<int>, now: int, i: nat)
    requires i <= |stations| && now !in stations[..i] && (i < |stations| ==> stations[i] == now)
    ensures forall j :: 0 <= j < |stations| && stations[j] == now && now !in stations[..j] ==> j == i
  {
    forall j | 0 <= j < |stations| && stations[j] == now && now !in stations[..j] ensures j == i {}
  }

  lemma BetweenIsPath(m: seq<Spirit>, from: int, to: int, k: int)
    requires FirstBetween(m, from, to, k)
    ensures Path(m[k].path) in m && m[k].path.start == from && m[k].path.end == to
  {}

  lemma OneBetween(m: seq<Spirit>, from: int, to: int, k: int)
    requires FirstBetween(m, from, to, k)
    ensures forall j :: FirstBetween(m, from, to, j) ==> j == k
  {}

  lemma NoneBetween(m: seq<Spirit>, from: int, to: int)
    ensures (forall p :: Path(p) in m ==> p.start != from || p.end != to) ==> forall k :: !FirstBetween(m, from, to, k)
  {
    if forall p :: Path(p) in m ==> p.start != from || p.end != to {
      forall k ensures !FirstBetween(m, from, to, k) {
        if FirstBetween(m, from, to, k) {
          BetweenIsPath(m, from, to, k);
        }
      }
    }
  }

  lemma FirstExists(m: seq<Spirit>, p: MapPath) returns (k: nat)
    requires Path(p) in m
    ensures k < |m| && FirstBetween(m, p.start, p.end, k)
  {
    k := 0;
    while !(m[k].Path? && m[k].path.start == p.start && m[k].path.end == p.end)
      invariant k < |m| && Path(p) in m[k..]
      invariant forall j :: 0 <= j < k && m[j].Path? ==> m[j].path.start != p.start || m[j].path.end != p.end
      decreases |m| - k
    {
      assert m[k..] == [m[k]] + m[k + 1..];
      k := k + 1;
    }
  }

  /** The stations of a shortest route: the line behind the `i`th one joins the `i`th station to the next,
      and the `i`th station is none of those before. */
  lemma RouteStations(net: Network, planned: Occupancy, qu: Query, route: seq<int>, distance: int, stations: seq<int>, i: nat)
    requires Loaded(net) && IsShortest(net, planned, qu, route, distance) && qu.start != qu.end && i + 1 < |route|
    requires forall j :: 0 <= j < |route| ==> LengthOf(net.m, route[j]) > 0
    requires |stations| == |route| && forall j :: 0 <= j < |route| ==> stations[j] == KnownPaths(net.m, route)[j].end
    ensures stations[i] !in stations[..i]
    ensures PathById(net.m, route[i + 1]).Some? && var p := PathById(net.m, route[i + 1]).value;
      Path(p) in net.m && p.id == route[i + 1] && p.start == stations[i] && p.end == stations[i + 1]
  {
    hide LengthOf, RouteLength, Loaded, IsRoute, PathById;
    RoutePaths(net, planned, qu, route);
    var paths := KnownPaths(net.m, route);
    forall j | 0 <= j < i ensures stations[j] != stations[i] {
      ShortestNoStationTwice(net, planned, qu, route, distance, j, i);
      assert PathById(net.m, route[j]) == Some(paths[j]) && PathById(net.m, route[i]) == Some(paths[i]);
    }
    PathByIdFinds(net.m, route[i + 1]);
    assert PathById(net.m, route[i + 1]) == Some(paths[i + 1]);
    assert paths[i].end == paths[i + 1].start;
  }

  /** A vehicle on a shortest route of positive lines that has arrived at the end of line `i` looks at the
      first path of the map between this station and the next: it sees a block in its way if and only if a
      block of that path is occupied by another vehicle.  When no other path joins the two stations, that
      path is the next line of the route. */
  lemma LooksAhead(net: Network, planned: Occupancy, qu: Query, route: seq<int>, distance: int, stations: seq<int>, i: nat,
                   blocks: seq<Blocks.BBlock>, agv: int)
    requires Loaded(net) && IsShortest(net, planned, qu, route, distance) && qu.start != qu.end && i + 1 < |route|
    requires forall j :: 0 <= j < |route| ==> LengthOf(net.m, route[j]) > 0
    requires |stations| == |route| && forall j :: 0 <= j < |route| ==> stations[j] == KnownPaths(net.m, route)[j].end
    ensures forall p, k |
              && 0 <= k < |net.m| && net.m[k] == Path(p) && p.start == stations[i] && p.end == stations[i + 1]
              && (forall q :: Path(q) in net.m[..k] ==> q.start != stations[i] || q.end != stations[i + 1])
            ::
              BlockedAhead(net.m, blocks, stations, stations[i], agv) <==>
              exists b, v, s :: Block(b) in net.m && p.id in b.spirits && Blocks.HasFact(blocks, b.id, v, s) && v != agv
    ensures (forall p :: Path(p) in net.m && p.start == stations[i] && p.end == stations[i + 1] ==> p.id == route[i + 1]) ==>
              (BlockedAhead(net.m, blocks, stations, stations[i], agv) <==>
               exists b, v, s ::
                 Block(b) in net.m && route[i + 1] in b.spirits && Blocks.HasFact(blocks, b.id, v, s) && v != agv)
  {
    RouteStations(net, planned, qu, route, distance, stations, i);
    hide IsShortest, Loaded, LengthOf, PathById, KnownPaths, Blocks.HasFact;
    var m, from, to := net.m, stations[i], stations[i + 1];
    OnlyFirst(stations, from, i);
    var first := FirstExists(m, PathById(m, route[i + 1]).value);
    OneBetween(m, from, to, first);
    assert Ahead(m, stations, from, i, first);
    assert BlockedAhead(m, blocks, stations, from, agv) <==> Occupied(m, blocks, m[first].path.id, agv);
    forall p, k | 0 <= k < |m| && m[k] == Path(p) && p.start == from && p.end == to
      && (forall q :: Path(q) in m[..k] ==> q.start != from || q.end != to)
      ensures k == first
    {
      IsFirst(m, from, to, k);
    }
    assert m[first] in m;
  }

  lemma IsFirst(m: seq<Spirit>, from: int, to: int, k: nat)
    requires k < |m| && m[k].Path? && m[k].path.start == from && m[k].path.end == to
    requires forall q :: Path(q) in m[..k] ==> q.start != from || q.end != to
    ensures FirstBetween(m, from, to, k)
  {
    forall j | 0 <= j < k && m[j].Path? ensures m[j].path.start != from || m[j].path.end != to {
      assert Path(m[j].path) == m[..k][j];
    }
  }

  /** The end of the first path that starts at the station, or 0. */
  function FirstFrom(paths: seq<MapPath>, station: int): (r: int)
    ensures forall i :: 0 <= i < |paths| && paths[i].start == station && (forall k :: 0 <= k < i ==> paths[k].start != station)
              ==> r == paths[i].end
    ensures (forall i :: 0 <= i < |paths| ==> paths[i].start != station) ==> r == 0
  {
    if paths == [] then 0
    else if paths[0].start == station then paths[0].end
    else FirstFrom(paths[1..], station)
  }

  /** A vehicle that leaves a station has a next station if and only if the first of its lines that
      starts at station 0 ends at another one. */
  lemma {:induction false} LeavingForgetsNext(paths: seq<MapPath>)
    ensures FirstFrom(paths, 0) != 0 <==>
            exists i :: 0 <= i < |paths| && StartsAtZero(paths, i) && paths[i].end != 0
  {
    if paths != [] {
      LeavingForgetsNext(paths[1..]);
      if paths[0].start == 0 {
        assert forall i :: 0 <= i < |paths| && StartsAtZero(paths, i) ==> i == 0;
      } else {
        assert forall i :: 0 <= i < |paths[1..]| ==> (StartsAtZero(paths[1..], i) <==> StartsAtZero(paths, i + 1));
        forall i | 0 <= i < |paths| && StartsAtZero(paths, i) ensures i > 0 && StartsAtZero(paths[1..], i - 1) {}
      }
    }
  }

  /** Line `i` is the first one that starts at station 0. */
  ghost predicate StartsAtZero(paths: seq<MapPath>, i: nat)
    requires i < |paths|
  {
    paths[i].start == 0 && forall k :: 0 <= k < i ==> paths[k].start != 0
  }

  /** So on a map whose stations have positive ids it never has one. */
  lemma LeavingForgetsOnMaps(paths: seq<MapPath>)
    requires forall p :: p in paths ==> p.start > 0
    ensures FirstFrom(paths, 0) == 0
  {
    LeavingForgetsNext(paths);
  }

  /** The facts after leaving: those before without the vehicle's for the station, and those of the line
      that was entered. */
  ghost predicate Left(m: seq<Spirit>, before: seq<Blocks.BBlock>, after: seq<Blocks.BBlock>, agv: int, station: int,
                       line: Option<MapPath>) {
    forall b, v, s ::
      Blocks.HasFact(after, b, v, s) <==>
        || (Blocks.HasFact(before, b, v, s) && !(v == agv && s == station && b in SpiritBlocks(m, station)))
        || (line.Some? && v == agv && s == line.value.id && b in SpiritBlocks(m, s))
  }

  lemma LeftIs(m: seq<Spirit>, a: seq<Blocks.BBlock>, b: seq<Blocks.BBlock>, c: seq<Blocks.BBlock>, agv: int, station: int,
               line: Option<MapPath>, entered: bool)
    requires Blocks.Freed(a, b, SpiritBlocks(m, station), agv, station)
    requires line.Some? && entered ==> Blocks.Added(b, c, SpiritBlocks(m, line.value.id), agv, line.value.id)
    requires line.None? || !entered ==> c == b
    ensures Left(m, a, c, agv, station, if entered then line else None)
  {
    hide Blocks.HasFact, SpiritBlocks;
  }

  /** What a vehicle gives back was no obstacle to it. */
  lemma FreedIsNoObstacle(before: seq<Blocks.BBlock>, after: seq<Blocks.BBlock>, ids: seq<int>, agv: int, spirit: int,
                          wanted: seq<int>)
    requires Blocks.Freed(before, after, ids, agv, spirit)
    ensures Blocks.AllFreeFor(after, wanted, agv) <==> Blocks.AllFreeFor(before, wanted, agv)
  {
    hide Blocks.HasFact;
    forall b | b in wanted ensures Blocks.FreeFor(after, b, agv) <==> Blocks.FreeFor(before, b, agv) {
      if Blocks.FreeFor(after, b, agv) {
        forall v, s | Blocks.HasFact(before, b, v, s) ensures v == agv {
          assert v != agv ==> Blocks.HasFact(after, b, v, s);
        }
      }
    }
  }

  /** The station is known and a block of it is occupied by another vehicle. */
  ghost predicate StationTaken(m: seq<Spirit>, blocks: seq<Blocks.BBlock>, station: int, agv: int) {
    PointById(m, station).Some? && Occupied(m, blocks, station, agv)
  }

  lemma FreedKeepsExclusive(a: seq<Blocks.BBlock>, b: seq<Blocks.BBlock>, ids: seq<int>, agv: int, spirit: int)
    requires Blocks.Freed(a, b, ids, agv, spirit)
    ensures Blocks.Exclusive(a) ==> Blocks.Exclusive(b)
  {
    hide Blocks.HasFact;
  }

  lemma AddedKeepsExclusive(a: seq<Blocks.BBlock>, b: seq<Blocks.BBlock>, ids: seq<int>, agv: int, spirit: int, ok: bool)
    requires ok <==> Blocks.AllFreeFor(a, ids, agv)
    requires if ok then Blocks.Added(a, b, ids, agv, spirit) else b == a
    ensures Blocks.Exclusive(a) ==> Blocks.Exclusive(b)
  {
    if Blocks.Exclusive(a) {
      Blocks.EffectKeepsExclusive(a, Blocks.Enter(ids, agv, spirit, ok), b);
    }
  }

  lemma StationPositive(m: seq<Spirit>, station: int)
    requires IsMap(m) && PointById(m, station).Some?
    ensures station > 0
  {
    PointByIdFinds(m, station);
  }

  lemma StationEntered(m: seq<Spirit>, facts: seq<Blocks.BBlock>, after: seq<Blocks.BBlock>, agv: int, station: int,
                       free: bool, entered: set<(int, int)>)
    requires free ==> Blocks.Added(facts, after, SpiritBlocks(m, station), agv, station)
    requires !free ==> after == facts
    requires entered == if free then EntryFacts(m, station) else {}
    ensures Exchanged(m, facts, after, agv, entered, {})
  {
    hide Blocks.HasFact, SpiritBlocks;
  }

  lemma EntryKeepsExclusive(m: seq<Spirit>, a: seq<Blocks.BBlock>, b: seq<Blocks.BBlock>, agv: int, station: int,
                            entered: set<(int, int)>, given: set<int>)
    requires Exchanged(m, a, b, agv, entered, given)
    requires entered == if Blocks.AllFreeFor(a, SpiritBlocks(m, station), agv) then EntryFacts(m, station) else {}
    ensures Blocks.Exclusive(a) ==> Blocks.Exclusive(b)
  {
    hide Exchanged, Blocks.FreeFor, Blocks.HasFact, Blocks.Exclusive;
    if Blocks.Exclusive(a) {
      ExchangeKeepsExclusive(m, a, b, agv, entered, given);
    }
  }
}
