/** Safety of the reservations over whole runs.

    The dispatcher plans a route against the current reservations and later writes the
    reservations of that route; in between, vehicles release spirits.  A run interleaves planning,
    committing and releases in any order. */
module Traffic {
  import opened Wrappers
  import opened Maps
  import opened Reservations
  import opened LineSearch
  import opened Routes
  import opened RoadRules

  datatype Plan = Plan(agv: int, goal: int, route: seq<int>)

  /** The reservations, and the route that is planned but not yet reserved. */
  datatype State = State(occ: Occupancy, pending: Option<Plan>)

  datatype Step =
    | PlanRoute(agv: int, last: int, start: int, goal: int, route: seq<int>, distance: int)
    | PlanDetour(agv: int, last: int, start: int, target: int, route: seq<int>, distance: int, halt: int)
    | Commit
    | ReleaseStation(station: int, who: int)
    | ReleaseLine(line: int, who: int)

  /** One step of the system.  Planning uses the planner's answer without turning around, and needs
      a route to drive.  A detour reserves the halt point it is planned to, or one the vehicle
      already owns.  Committing writes the reservations of the pending route. */
  ghost predicate Next(net: Network, s: State, step: Step, s': State) {
    match step
    case PlanRoute(agv, last, start, goal, route, distance) =>
      && s.pending == None && agv > 0 && route != []
      && PathAnswer(net, s.occ, agv, last, start, goal, false, route, distance)
      && s' == s.(pending := Some(Plan(agv, goal, route)))
    case PlanDetour(agv, last, start, target, route, distance, halt) =>
      && s.pending == None && agv > 0 && route != []
      && PathAnswer(net, s.occ, agv, last, start, target, false, route, distance)
      && IsPoint(net.m, halt) && (halt == target || Owner(s.occ, halt) == agv)
      && s' == s.(pending := Some(Plan(agv, halt, route)))
    case Commit =>
      && s.pending.Some?
      && s' == State(Reserve(net.m, s.occ, s.pending.value.agv, s.pending.value.goal, s.pending.value.route), None)
    case ReleaseStation(station, who) =>
      who > 0 && s' == s.(occ := FreeStation(net.m, s.occ, station, who))
    case ReleaseLine(line, who) =>
      who > 0 && s' == s.(occ := FreeLine(net.m, s.occ, line, who))
  }

  ghost predicate IsRun(net: Network, states: seq<State>, steps: seq<Step>) {
    && |states| == |steps| + 1
    && forall i :: 0 <= i < |steps| ==> Next(net, states[i], steps[i], states[i + 1])
  }

  // ---------------------------------------------------------------- no two vehicles head on

  /** Two vehicles never hold lines that are driven against each other. */
  ghost predicate NoHeadOn(net: Network, occ: Occupancy) {
    forall l, r, a, b |
      && l in Paths(net.m) && r in Paths(net.m) && r.id in Successors(net.reverse, l.id)
      && a in Holders(occ, l.id) && b in Holders(occ, r.id)
    :: a == b
  }

  /** Lines driven against the route are held by nobody but `agv`. */
  ghost predicate RouteUnopposed(net: Network, occ: Occupancy, agv: int, route: seq<int>) {
    && (forall l :: l in route ==> PathById(net.m, l).Some?)
    && forall l, r, b |
         && l in route && r in Paths(net.m) && r.id in Successors(net.reverse, l)
         && b in Holders(occ, r.id)
       :: b == agv
  }

  /** What planning guarantees about the lines of the route. */
  lemma PlannedIsUnopposed(net: Network, occ: Occupancy, agv: int, last: int, start: int, goal: int,
                           route: seq<int>, distance: int)
    requires IsMap(net.m) && route != []
    requires PathAnswer(net, occ, agv, last, start, goal, false, route, distance)
    ensures RouteUnopposed(net, occ, agv, route)
    ensures IsRoute(net, occ, Query(true, agv, KnownStart(last, start), goal), route)
    ensures StationFree(occ, goal, agv) && IsPoint(net.m, goal)
  {
    var qu := Query(true, agv, KnownStart(last, start), goal);
    assert IsShortest(net, occ, qu, route, distance) && StationFree(occ, goal, agv) && IsPoint(net.m, goal);
    hide PathAnswer, StationFree, IsPoint, RouteUnopposed;
    RouteIsUnopposed(net, occ, qu, route);
  }

  /** A route of the filter is unopposed. */
  lemma RouteIsUnopposed(net: Network, occ: Occupancy, qu: Query, route: seq<int>)
    requires IsMap(net.m) && qu.filtered && IsRoute(net, occ, qu, route)
    ensures RouteUnopposed(net, occ, qu.agv, route)
  {
    hide UturnPoints, GroupsFree, PathById, ReversesFree;
    forall l | l in route ensures PathById(net.m, l).Some? && PathById(net.m, l).value.id == l
      ensures ReversesFree(Successors(net.reverse, l), occ, qu.agv)
    {
      var i :| 0 <= i < |route| && route[i] == l;
      assert DrivableId(net, occ, qu, route[i]);
      PathByIdFinds(net.m, l);
    }
    forall l, r, b | l in route && r in Paths(net.m) && r.id in Successors(net.reverse, l) && b in Holders(occ, r.id)
      ensures b == qu.agv
    {
      assert Path(r) in net.m;
      HoldsAgainst(Successors(net.reverse, l), occ, qu.agv, r.id, b);
    }
  }

  lemma HoldsAgainst(reverses: seq<int>, occ: Occupancy, agv: int, r: int, b: int)
    requires ReversesFree(reverses, occ, agv) && r in reverses && r > 0 && b in Holders(occ, r)
    ensures b == agv
  {
    assert !HeldByOther(Holders(occ, r), agv);
  }

  lemma ReserveKeepsNoHeadOn(net: Network, occ: Occupancy, agv: int, goal: int, route: seq<int>)
    requires Loaded(net) && NoHeadOn(net, occ) && RouteUnopposed(net, occ, agv, route)
    ensures NoHeadOn(net, Reserve(net.m, occ, agv, goal, route))
  {
    var occ' := Reserve(net.m, occ, agv, goal, route);
    AddLinesHolds(net.m, AddStation(net.m, occ, goal, agv), route, agv);
    forall l, r, a, b | l in Paths(net.m) && r in Paths(net.m) && r.id in Successors(net.reverse, l.id)
      && a in Holders(occ', l.id) && b in Holders(occ', r.id)
      ensures a == b
    {
      OpposesSymmetric(net, l, r);
      assert Holders(AddStation(net.m, occ, goal, agv), l.id) == Holders(occ, l.id);
      assert Holders(AddStation(net.m, occ, goal, agv), r.id) == Holders(occ, r.id);
      if a in Holders(occ, l.id) && b in Holders(occ, r.id) {
      } else if a !in Holders(occ, l.id) {
        assert a == agv && l.id in route;
      } else {
        assert b == agv && r.id in route;
      }
    }
  }

  /** The invariant of a run: nobody is head on, and the pending route stays unopposed. */
  ghost predicate HeadOnInv(net: Network, s: State) {
    && NoHeadOn(net, s.occ)
    && (s.pending.Some? ==> RouteUnopposed(net, s.occ, s.pending.value.agv, s.pending.value.route))
  }

  lemma HeadOnKept(net: Network, s: State, step: Step, s': State)
    requires Loaded(net) && HeadOnInv(net, s) && Next(net, s, step, s')
    ensures HeadOnInv(net, s')
  {
    match step
    case PlanRoute(agv, last, start, goal, route, distance) =>
      PlannedIsUnopposed(net, s.occ, agv, last, start, goal, route, distance);
    case PlanDetour(agv, last, start, target, route, distance, halt) =>
      PlannedIsUnopposed(net, s.occ, agv, last, start, target, route, distance);
    case Commit =>
      ReserveKeepsNoHeadOn(net, s.occ, s.pending.value.agv, s.pending.value.goal, s.pending.value.route);
    case ReleaseStation(station, who) =>
      assert forall l :: Holders(s'.occ, l) == Holders(s.occ, l);
    case ReleaseLine(line, who) =>
      assert forall l, a :: a in Holders(s'.occ, l) ==> a in Holders(s.occ, l);
  }

  /** In every run that starts with nobody head on and nothing pending, nobody is ever head on. */
  lemma {:induction false} NeverHeadOn(net: Network, states: seq<State>, steps: seq<Step>)
    requires Loaded(net) && IsRun(net, states, steps)
    requires NoHeadOn(net, states[0].occ) && states[0].pending == None
    ensures forall i :: 0 <= i < |states| ==> HeadOnInv(net, states[i]) && NoHeadOn(net, states[i].occ)
  {
    hide NoHeadOn, Next, RouteUnopposed;
    assert HeadOnInv(net, states[0]) by { NothingPending(net, states[0]); }
    for i := 0 to |steps|
      invariant forall k :: 0 <= k <= i ==> HeadOnInv(net, states[k])
    {
      assert Next(net, states[i], steps[i], states[i + 1]);
      HeadOnKept(net, states[i], steps[i], states[i + 1]);
    }
  }

  lemma NothingPending(net: Network, s: State)
    requires NoHeadOn(net, s.occ) && s.pending == None
    ensures HeadOnInv(net, s)
  {}

  /** Two vehicles never hold lines that join the same two places backwards. */
  ghost predicate NobodyFaces(m: seq<Spirit>, occ: Occupancy) {
    forall a, b, v, w |
      && Path(a) in m && Path(b) in m && FaceToFace(m, a, b)
      && v in Holders(occ, a.id) && w in Holders(occ, b.id)
    :: v == w
  }

  lemma NoHeadOnIs(net: Network, occ: Occupancy)
    requires Loaded(net)
    ensures NoHeadOn(net, occ) <==> NobodyFaces(net.m, occ)
  {
    hide Loaded, FaceToFace, Holders, Successors;
    forall a, b | a in Paths(net.m) && b in Paths(net.m)
      ensures b.id in Successors(net.reverse, a.id) <==> FaceToFace(net.m, a, b)
    {
      ListedIff(net, a, b);
    }
  }

  /** In every run that starts with no two vehicles face to face and nothing pending, two vehicles never hold
      two lines that swap stations, or that join the same two places backwards. */
  lemma NeverFaceToFace(net: Network, states: seq<State>, steps: seq<Step>, i: nat, a: MapPath, b: MapPath, v: int, w: int,
                        p: MapPoint, q: MapPoint, r: MapPoint, s: MapPoint)
    requires Loaded(net) && IsRun(net, states, steps)
    requires NobodyFaces(net.m, states[0].occ) && states[0].pending == None
    requires i < |states| && Path(a) in net.m && Path(b) in net.m && a.id != b.id
    requires v in Holders(states[i].occ, a.id) && w in Holders(states[i].occ, b.id)
    requires Point(p) in net.m && Point(q) in net.m && p.id == a.start && q.id == a.end
    requires Point(r) in net.m && Point(s) in net.m && r.id == b.start && s.id == b.end
    requires (a.start == b.end && a.end == b.start)
             || (p.realX == s.realX && p.realY == s.realY && q.realX == r.realX && q.realY == r.realY)
    ensures v == w
  {
    hide Loaded, Holders, NoHeadOn, IsRun;
    LoadedIsMap(net);
    NoHeadOnIs(net, states[0].occ);
    NeverHeadOn(net, states, steps);
    NoHeadOnIs(net, states[i].occ);
    assert FaceToFace(net.m, a, b) by {
      OnePoint(net.m, p);
      OnePoint(net.m, q);
      assert At(net.m, a.start, p.realX, p.realY) && At(net.m, a.end, q.realX, q.realY);
      assert At(net.m, b.start, r.realX, r.realY) && At(net.m, b.end, s.realX, s.realY);
    }
  }

  // ---------------------------------------------------------------- no station changes hands

  /** The goal of the pending route stays free for its vehicle, so a reservation never replaces
      another vehicle's: a station passes from one vehicle to another only through a release. */
  ghost predicate GoalFree(s: State) {
    s.pending.Some? ==> StationFree(s.occ, s.pending.value.goal, s.pending.value.agv)
  }

  lemma NoStationStolen(net: Network, s: State, step: Step, s': State)
    requires IsMap(net.m) && GoalFree(s) && Next(net, s, step, s')
    ensures GoalFree(s')
    ensures forall x :: Owner(s.occ, x) != 0 && Owner(s'.occ, x) != 0 ==> Owner(s'.occ, x) == Owner(s.occ, x)
  {
    match step
    case PlanRoute(agv, last, start, goal, route, distance) =>
      PlannedIsUnopposed(net, s.occ, agv, last, start, goal, route, distance);
    case PlanDetour(agv, last, start, target, route, distance, halt) =>
      PlannedIsUnopposed(net, s.occ, agv, last, start, target, route, distance);
    case Commit =>
      var p := s.pending.value;
      AddLinesHolds(net.m, AddStation(net.m, s.occ, p.goal, p.agv), p.route, p.agv);
    case ReleaseStation(station, who) =>
    case ReleaseLine(line, who) =>
  }

  // ---------------------------------------------------------------- holders

  lemma OnceKept(net: Network, s: State, step: Step, s': State)
    requires ListedOnce(s.occ) && Next(net, s, step, s')
    ensures ListedOnce(s'.occ)
  {
    hide PathAnswer, ListedOnce, FreeLine;
    match step
    case PlanRoute(agv, last, start, goal, route, distance) =>
    case PlanDetour(agv, last, start, target, route, distance, halt) =>
    case Commit =>
      var p := s.pending.value;
      SameHolders(s.occ, AddStation(net.m, s.occ, p.goal, p.agv));
      AddLinesOnce(net.m, AddStation(net.m, s.occ, p.goal, p.agv), p.route, p.agv);
    case ReleaseStation(station, who) => SameHolders(s.occ, s'.occ);
    case ReleaseLine(line, who) => FreeLineOnce(net.m, s.occ, line, who);
  }

  lemma SameHolders(a: Occupancy, b: Occupancy)
    requires ListedOnce(a) && b.lines == a.lines
    ensures ListedOnce(b)
  {
    assert forall l :: Holders(b, l) == Holders(a, l);
  }

  /** In every run from an empty table no vehicle is ever listed twice as the holder of a line, so the test of
      the planner, more than one holder or one that is not the vehicle, says that another vehicle holds it. */
  lemma {:induction false} HoldersListedOnce(net: Network, states: seq<State>, steps: seq<Step>)
    requires IsRun(net, states, steps) && states[0] == State(Occupancy(map[], map[], map[]), None)
    ensures forall i :: 0 <= i < |states| ==> ListedOnce(states[i].occ)
    ensures forall i, l, agv :: 0 <= i < |states| ==>
              (HeldByOther(Holders(states[i].occ, l), agv) <==> exists b :: b in Holders(states[i].occ, l) && b != agv)
  {
    assert ListedOnce(states[0].occ);
    hide Next, ListedOnce, HeldByOther, Holders;
    for i := 0 to |steps|
      invariant forall k :: 0 <= k <= i ==> ListedOnce(states[k].occ)
    {
      assert Next(net, states[i], steps[i], states[i + 1]);
      OnceKept(net, states[i], steps[i], states[i + 1]);
    }
    forall i, l, agv | 0 <= i < |states|
      ensures HeldByOther(Holders(states[i].occ, l), agv) <==> exists b :: b in Holders(states[i].occ, l) && b != agv
    {
      OtherHolder(states[i].occ, l, agv);
    }
  }

  lemma OtherHolder(occ: Occupancy, l: int, agv: int)
    requires ListedOnce(occ)
    ensures HeldByOther(Holders(occ, l), agv) <==> exists b :: b in Holders(occ, l) && b != agv
  {
    hide Holders;
    var holders := Holders(occ, l);
    if |holders| > 1 {
      assert holders[0] in holders && holders[1] in holders && holders[0] != holders[1];
    } else if |holders| == 1 {
      assert holders[0] in holders;
    }
  }

  // ---------------------------------------------------------------- group records

  /** The record of a COMMON group matches the reservations: a reserved spirit of the group is held
      by the recorded owner and listed; the list is not empty and names only spirits of the group
      that the owner holds. */
  ghost predicate GroupSound(occ: Occupancy, g: MapGroup) {
    && (forall x, a :: x in g.spirits && Holds(occ, x, a) ==>
         g.id in occ.groups && occ.groups[g.id].agv == a && x in occ.groups[g.id].spirits)
    && (g.id in occ.groups ==>
         forall x :: x in occ.groups[g.id].spirits ==> x in g.spirits && Holds(occ, x, occ.groups[g.id].agv))
  }

  ghost predicate GroupsSound(m: seq<Spirit>, occ: Occupancy) {
    && (forall g :: g in occ.groups ==> occ.groups[g].spirits != [])
    && forall g :: g in Groups(m, COMMON_GROUP) ==> GroupSound(occ, g)
  }

  /** Stations are reserved as stations and lines as lines. */
  ghost predicate WellTyped(m: seq<Spirit>, occ: Occupancy) {
    && (forall x :: PathById(m, x).Some? ==> Owner(occ, x) == 0)
    && (forall x :: PathById(m, x).None? ==> Holders(occ, x) == [])
    && (forall x :: 0 !in Holders(occ, x))
  }

  /** Then nothing but lines of the map is held as a line. */
  lemma TypedMeansLines(m: seq<Spirit>, occ: Occupancy)
    requires WellTyped(m, occ)
    ensures OnlyLinesHeld(m, occ)
  {
    hide PathById;
    forall l | Holders(occ, l) != [] ensures exists p :: Path(p) in m && p.id == l {
      PathByIdFinds(m, l);
    }
  }

  /** The group records match reservations that keep stations and lines apart. */
  ghost predicate GroupsRight(m: seq<Spirit>, occ: Occupancy) {
    WellTyped(m, occ) && GroupsSound(m, occ)
  }

  /** No COMMON group of the spirit is recorded for another vehicle. */
  ghost predicate GroupsOpenFor(m: seq<Spirit>, occ: Occupancy, spirit: int, agv: int) {
    forall g :: g in CommonGroups(m, spirit) && g in occ.groups ==> occ.groups[g].agv == agv
  }

  lemma GroupListed(m: seq<Spirit>, g: MapGroup, spirit: int)
    requires UniqueIds(m) && g in Groups(m, COMMON_GROUP)
    ensures g.id in CommonGroups(m, spirit) <==> spirit in g.spirits
  {
    if g.id in CommonGroups(m, spirit) {
      var h :| h in Groups(m, COMMON_GROUP) && h.id == g.id && spirit in h.spirits;
      var i :| 0 <= i < |m| && m[i] == Group(g);
      var j :| 0 <= j < |m| && m[j] == Group(h);
      assert i == j;
    }
  }

  /** Reserving a spirit of groups that are open for the vehicle keeps the records sound. */
  lemma AddKeepsGroup(m: seq<Spirit>, occ: Occupancy, occ': Occupancy, spirit: int, agv: int, g: MapGroup)
    requires UniqueIds(m) && g in Groups(m, COMMON_GROUP) && GroupSound(occ, g)
    requires GroupsOpenFor(m, occ, spirit, agv)
    requires occ'.groups == Record(occ.groups, CommonGroups(m, spirit), spirit, agv)
    requires forall x, a :: x != spirit ==> (Holds(occ', x, a) <==> Holds(occ, x, a))
    requires Holds(occ', spirit, agv)
    requires forall a :: Holds(occ', spirit, a) ==> a == agv || Holds(occ, spirit, a)
    ensures GroupSound(occ', g)
  {
    hide Holds, Record, GroupsWith, Groups, UniqueIds;
    RecordAt(occ.groups, CommonGroups(m, spirit), spirit, agv);
    GroupListed(m, g, spirit);
  }

  lemma AddKeepsGroups(m: seq<Spirit>, occ: Occupancy, occ': Occupancy, spirit: int, agv: int)
    requires UniqueIds(m) && GroupsSound(m, occ) && GroupsOpenFor(m, occ, spirit, agv)
    requires occ'.groups == Record(occ.groups, CommonGroups(m, spirit), spirit, agv)
    requires forall x, a :: x != spirit ==> (Holds(occ', x, a) <==> Holds(occ, x, a))
    requires Holds(occ', spirit, agv)
    requires forall a :: Holds(occ', spirit, a) ==> a == agv || Holds(occ, spirit, a)
    ensures GroupsSound(m, occ')
  {
    hide Holds, Record, GroupSound;
    RecordAt(occ.groups, CommonGroups(m, spirit), spirit, agv);
    forall g | g in occ'.groups ensures occ'.groups[g].spirits != [] {
      if g in CommonGroups(m, spirit) {
        assert spirit in occ'.groups[g].spirits;
      }
    }
    forall g | g in Groups(m, COMMON_GROUP) ensures GroupSound(occ', g) {
      AddKeepsGroup(m, occ, occ', spirit, agv, g);
    }
  }

  /** The vehicle gave up the spirit and its groups forgot it: sound again exactly when every
      recorded group of the spirit belonged to that vehicle. */
  lemma ReleaseKeepsGroups(m: seq<Spirit>, occ: Occupancy, occ': Occupancy, spirit: int, agv: int)
    requires UniqueIds(m) && GroupsSound(m, occ) && GroupsOpenFor(m, occ, spirit, agv)
    requires occ'.groups == Forget(occ.groups, CommonGroups(m, spirit), spirit, agv)
    requires forall x, a :: Holds(occ', x, a) <==> Holds(occ, x, a) && !(x == spirit && a == agv)
    ensures GroupsSound(m, occ')
  {
    hide Holds, Forget, GroupSound, CommonGroups;
    ForgetAt(occ.groups, CommonGroups(m, spirit), spirit, agv);
    forall g | g in Groups(m, COMMON_GROUP) ensures GroupSound(occ', g) {
      ReleaseKeepsGroup(m, occ, occ', spirit, agv, g);
    }
  }

  lemma ReleaseKeepsGroup(m: seq<Spirit>, occ: Occupancy, occ': Occupancy, spirit: int, agv: int, g: MapGroup)
    requires UniqueIds(m) && g in Groups(m, COMMON_GROUP) && GroupSound(occ, g)
    requires forall g :: g in occ.groups ==> occ.groups[g].spirits != []
    requires GroupsOpenFor(m, occ, spirit, agv)
    requires occ'.groups == Forget(occ.groups, CommonGroups(m, spirit), spirit, agv)
    requires forall x, a :: Holds(occ', x, a) <==> Holds(occ, x, a) && !(x == spirit && a == agv)
    ensures GroupSound(occ', g)
  {
    hide Holds, Forget, GroupsWith, Groups, UniqueIds;
    ForgetAt(occ.groups, CommonGroups(m, spirit), spirit, agv);
    GroupListed(m, g, spirit);
  }

  lemma ForeignReleaseBreaksGroups(m: seq<Spirit>, occ: Occupancy, occ': Occupancy, spirit: int, agv: int)
    requires UniqueIds(m) && GroupsSound(m, occ) && !GroupsOpenFor(m, occ, spirit, agv)
    requires occ'.groups == Forget(occ.groups, CommonGroups(m, spirit), spirit, agv)
    requires forall x, a :: Holds(occ', x, a) <==> Holds(occ, x, a) && !(x == spirit && a == agv)
    ensures !GroupsSound(m, occ')
  {
    hide Holds, Forget, GroupsWith;
    ForgetAt(occ.groups, CommonGroups(m, spirit), spirit, agv);
    var id :| id in CommonGroups(m, spirit) && id in occ.groups && occ.groups[id].agv != agv;
    var g :| g in Groups(m, COMMON_GROUP) && g.id == id && spirit in g.spirits;
    var b, x := occ.groups[id].agv, occ.groups[id].spirits[0];
    assert GroupSound(occ, g) && Holds(occ, x, b) && Holds(occ', x, b);
  }

  /** Releasing a station keeps the group records sound if and only if every recorded COMMON group
      of the station belongs to the vehicle that releases it. */
  lemma StationReleaseSoundIff(m: seq<Spirit>, occ: Occupancy, station: int, agv: int)
    requires UniqueIds(m) && GroupsSound(m, occ) && WellTyped(m, occ)
    requires PathById(m, station).None? && agv > 0
    ensures GroupsSound(m, FreeStation(m, occ, station, agv)) <==> GroupsOpenFor(m, occ, station, agv)
  {
    var occ' := FreeStation(m, occ, station, agv);
    assert forall x, a :: Holds(occ', x, a) <==> Holds(occ, x, a) && !(x == station && a == agv);
    hide GroupsSound, FreeStation;
    assert occ'.groups == Forget(occ.groups, CommonGroups(m, station), station, agv);
    if GroupsOpenFor(m, occ, station, agv) {
      ReleaseKeepsGroups(m, occ, occ', station, agv);
    } else {
      ForeignReleaseBreaksGroups(m, occ, occ', station, agv);
    }
  }

  /** The same for a line. */
  lemma LineReleaseSoundIff(m: seq<Spirit>, occ: Occupancy, line: int, agv: int)
    requires UniqueIds(m) && GroupsSound(m, occ) && WellTyped(m, occ)
    requires PathById(m, line).Some? && agv > 0
    ensures GroupsSound(m, FreeLine(m, occ, line, agv)) <==> GroupsOpenFor(m, occ, line, agv)
  {
    var occ' := FreeLine(m, occ, line, agv);
    assert forall x, a :: Holds(occ', x, a) <==> Holds(occ, x, a) && !(x == line && a == agv);
    if GroupsOpenFor(m, occ, line, agv) {
      ReleaseKeepsGroups(m, occ, occ', line, agv);
    } else {
      ForeignReleaseBreaksGroups(m, occ, occ', line, agv);
    }
  }

  // ---------------------------------------------------------------- group records over runs

  /** What a group is for: two vehicles never hold spirits of one COMMON group. */
  lemma OneVehiclePerGroup(m: seq<Spirit>, occ: Occupancy, g: MapGroup, x: int, a: int, y: int, b: int)
    requires GroupsSound(m, occ) && g in Groups(m, COMMON_GROUP)
    requires x in g.spirits && y in g.spirits && Holds(occ, x, a) && Holds(occ, y, b)
    ensures a == b
  {
    assert GroupSound(occ, g);
  }

  /** All groups a plan will touch are unrecorded or its vehicle's. */
  ghost predicate PlanOpen(m: seq<Spirit>, occ: Occupancy, p: Plan) {
    && p.agv > 0
    && PathById(m, p.goal).None?
    && GroupsOpenFor(m, occ, p.goal, p.agv)
    && forall l :: l in p.route ==> PathById(m, l).Some? && GroupsOpenFor(m, occ, l, p.agv)
  }

  ghost predicate GroupInv(m: seq<Spirit>, s: State) {
    && WellTyped(m, s.occ)
    && GroupsSound(m, s.occ)
    && (s.pending.Some? ==> PlanOpen(m, s.occ, s.pending.value))
  }

  /** The step releases a station as a station and a line as a line. */
  predicate TypedRelease(m: seq<Spirit>, step: Step) {
    match step
    case ReleaseStation(station, who) => PathById(m, station).None?
    case ReleaseLine(line, who) => PathById(m, line).Some?
    case _ => true
  }

  /** The step releases a station as a station and a line as a line, and every recorded COMMON group
      of the spirit belongs to the vehicle that releases it. */
  predicate OwnedRelease(m: seq<Spirit>, occ: Occupancy, step: Step) {
    match step
    case ReleaseStation(station, who) =>
      PathById(m, station).None? && forall g :: g in CommonGroups(m, station) && g in occ.groups ==> occ.groups[g].agv == who
    case ReleaseLine(line, who) =>
      PathById(m, line).Some? && forall g :: g in CommonGroups(m, line) && g in occ.groups ==> occ.groups[g].agv == who
    case _ => true
  }

  lemma PlannedIsOpen(net: Network, occ: Occupancy, agv: int, last: int, start: int, goal: int,
                      route: seq<int>, distance: int)
    requires IsMap(net.m) && route != [] && agv > 0
    requires PathAnswer(net, occ, agv, last, start, goal, false, route, distance)
    ensures PlanOpen(net.m, occ, Plan(agv, goal, route))
  {
    PlannedIsUnopposed(net, occ, agv, last, start, goal, route, distance);
    var qu := Query(true, agv, KnownStart(last, start), goal);
    GoalIsNoLine(net.m, goal);
    hide PathAnswer, UturnPoints, ReversesFree, RouteUnopposed;
    forall i | 0 <= i < |route|
      ensures GroupsOpenFor(net.m, occ, route[i], agv)
      ensures GroupsOpenFor(net.m, occ, PathById(net.m, route[i]).value.end, agv)
    {
      assert DrivableId(net, occ, qu, route[i]);
      PathByIdFinds(net.m, route[i]);
    }
  }

  /** The same for a detour: the halt point is the planned one, or a station whose groups are recorded
      for the vehicle that owns it. */
  lemma DetourIsOpen(net: Network, occ: Occupancy, agv: int, last: int, start: int, target: int,
                     route: seq<int>, distance: int, halt: int)
    requires IsMap(net.m) && GroupsSound(net.m, occ) && route != [] && agv > 0
    requires PathAnswer(net, occ, agv, last, start, target, false, route, distance)
    requires IsPoint(net.m, halt) && (halt == target || Owner(occ, halt) == agv)
    ensures PlanOpen(net.m, occ, Plan(agv, halt, route))
  {
    hide PathAnswer, IsMap, GroupsSound, CommonGroups, PathById;
    PlannedIsOpen(net, occ, agv, last, start, target, route, distance);
    assert UniqueIds(net.m) by { MapIds(net.m); }
    GoalIsNoLine(net.m, halt);
    if Owner(occ, halt) == agv {
      HeldIsOpen(net.m, occ, halt, agv);
    }
  }

  lemma MapIds(m: seq<Spirit>)
    requires IsMap(m)
    ensures UniqueIds(m)
  {}

  /** With right records the groups of a spirit are recorded for the vehicle that holds it. */
  lemma HeldIsOpen(m: seq<Spirit>, occ: Occupancy, x: int, agv: int)
    requires GroupsSound(m, occ) && Holds(occ, x, agv)
    ensures GroupsOpenFor(m, occ, x, agv)
  {
    forall g | g in CommonGroups(m, x) && g in occ.groups ensures occ.groups[g].agv == agv {
      var h :| h in Groups(m, COMMON_GROUP) && h.id == g && x in h.spirits;
      assert GroupSound(occ, h);
    }
  }

  lemma PathIsNoPoint(m: seq<Spirit>, p: MapPath, i: nat)
    requires UniqueIds(m) && p in Paths(m) && i < |m| && m[i].Point?
    ensures m[i].Id() != p.id
  {
    var j :| 0 <= j < |m| && m[j] == Path(p);
    assert i < j || j < i;
  }

  lemma GoalIsNoLine(m: seq<Spirit>, goal: int)
    requires UniqueIds(m) && IsPoint(m, goal)
    ensures PathById(m, goal).None?
  {
    SpiritIsPoint(m, goal);
    PathByIdFinds(m, goal);
    var i :| 0 <= i < |m| && m[i].Id() == goal && m[i].Point?;
    if PathById(m, goal).Some? {
      PathIsNoPoint(m, PathById(m, goal).value, i);
    }
  }

  lemma {:induction false} SpiritIsPoint(m: seq<Spirit>, id: int)
    requires IsPoint(m, id)
    ensures exists i :: 0 <= i < |m| && m[i].Id() == id && m[i].Point?
  {
    if m[0].Id() == id {
      assert m[0].Point?;
    } else {
      SpiritIsPoint(m[1..], id);
      var i :| 0 <= i < |m[1..]| && m[1..][i].Id() == id && m[1..][i].Point?;
      assert m[i + 1].Id() == id && m[i + 1].Point?;
    }
  }

  /** Reserving for one vehicle closes no group for that vehicle. */
  lemma RecordKeepsOpen(m: seq<Spirit>, occ: Occupancy, occ': Occupancy, spirit: int, agv: int, x: int)
    requires occ'.groups == Record(occ.groups, CommonGroups(m, spirit), spirit, agv)
    requires GroupsOpenFor(m, occ, x, agv)
    ensures GroupsOpenFor(m, occ', x, agv)
  {
    RecordAt(occ.groups, CommonGroups(m, spirit), spirit, agv);
    hide Record, CommonGroups;
  }

  // The four operations keep stations and lines apart.

  lemma TypedStep(m: seq<Spirit>, occ: Occupancy, occ': Occupancy, x: int)
    requires WellTyped(m, occ)
    requires forall y :: y != x ==> Owner(occ', y) == Owner(occ, y) && Holders(occ', y) == Holders(occ, y)
    requires PathById(m, x).Some? ==> Owner(occ', x) == 0
    requires PathById(m, x).None? ==> Holders(occ', x) == []
    requires 0 !in Holders(occ', x)
    ensures WellTyped(m, occ')
  {
    hide PathById, Owner, Holders;
    forall y ensures PathById(m, y).Some? ==> Owner(occ', y) == 0
      ensures PathById(m, y).None? ==> Holders(occ', y) == []
    {
      assert y != x ==> Owner(occ', y) == Owner(occ, y);
    }
    forall y ensures 0 !in Holders(occ', y) {
      assert 0 !in Holders(occ, y);
    }
  }

  lemma AddStationTyped(m: seq<Spirit>, occ: Occupancy, x: int, agv: int)
    requires WellTyped(m, occ) && PathById(m, x).None?
    ensures WellTyped(m, AddStation(m, occ, x, agv))
  {
    hide PathById, Record, CommonGroups;
    assert 0 !in Holders(occ, x);
    TypedStep(m, occ, AddStation(m, occ, x, agv), x);
  }

  lemma AddLineTyped(m: seq<Spirit>, occ: Occupancy, x: int, agv: int)
    requires WellTyped(m, occ) && PathById(m, x).Some? && agv > 0
    ensures WellTyped(m, AddLine(m, occ, x, agv))
  {
    hide PathById, Record, CommonGroups;
    assert 0 !in Holders(occ, x);
    TypedStep(m, occ, AddLine(m, occ, x, agv), x);
  }

  lemma FreeStationTyped(m: seq<Spirit>, occ: Occupancy, x: int, agv: int)
    requires WellTyped(m, occ)
    ensures WellTyped(m, FreeStation(m, occ, x, agv))
  {
    hide PathById, Forget, CommonGroups;
    assert 0 !in Holders(occ, x);
    TypedStep(m, occ, FreeStation(m, occ, x, agv), x);
  }

  lemma FreeLineTyped(m: seq<Spirit>, occ: Occupancy, x: int, agv: int)
    requires WellTyped(m, occ)
    ensures WellTyped(m, FreeLine(m, occ, x, agv))
  {
    hide PathById, Forget, CommonGroups;
    assert RemoveAll([], agv) == [];
    assert 0 !in Holders(occ, x);
    TypedStep(m, occ, FreeLine(m, occ, x, agv), x);
  }

  lemma AddStationKeeps(m: seq<Spirit>, occ: Occupancy, goal: int, agv: int)
    requires UniqueIds(m) && WellTyped(m, occ) && GroupsSound(m, occ)
    requires agv > 0 && PathById(m, goal).None? && GroupsOpenFor(m, occ, goal, agv)
    ensures WellTyped(m, AddStation(m, occ, goal, agv)) && GroupsSound(m, AddStation(m, occ, goal, agv))
  {
    AddStationTyped(m, occ, goal, agv);
    hide GroupsSound, CommonGroups, GroupsOpenFor, Record;
    AddKeepsGroups(m, occ, AddStation(m, occ, goal, agv), goal, agv);
  }

  lemma AddLineKeeps(m: seq<Spirit>, occ: Occupancy, line: int, agv: int)
    requires UniqueIds(m) && WellTyped(m, occ) && GroupsSound(m, occ)
    requires agv > 0 && PathById(m, line).Some? && GroupsOpenFor(m, occ, line, agv)
    ensures WellTyped(m, AddLine(m, occ, line, agv)) && GroupsSound(m, AddLine(m, occ, line, agv))
  {
    AddLineTyped(m, occ, line, agv);
    hide GroupsSound, CommonGroups, GroupsOpenFor, Record;
    AddKeepsGroups(m, occ, AddLine(m, occ, line, agv), line, agv);
  }

  lemma {:induction false} AddLinesKeep(m: seq<Spirit>, occ: Occupancy, lines: seq<int>, agv: int)
    requires UniqueIds(m) && WellTyped(m, occ) && GroupsSound(m, occ) && agv > 0
    requires forall l :: l in lines ==> PathById(m, l).Some? && GroupsOpenFor(m, occ, l, agv)
    ensures WellTyped(m, AddLines(m, occ, lines, agv)) && GroupsSound(m, AddLines(m, occ, lines, agv))
    ensures forall x :: GroupsOpenFor(m, occ, x, agv) ==> GroupsOpenFor(m, AddLines(m, occ, lines, agv), x, agv)
  {
    hide GroupsSound, CommonGroups, GroupsOpenFor, WellTyped;
    if lines != [] {
      var front, last := lines[..|lines| - 1], lines[|lines| - 1];
      assert lines == front + [last];
      AddLinesKeep(m, occ, front, agv);
      var before := AddLines(m, occ, front, agv);
      AddLineKeeps(m, before, last, agv);
      forall x | GroupsOpenFor(m, before, x, agv) ensures GroupsOpenFor(m, AddLine(m, before, last, agv), x, agv) {
        RecordKeepsOpen(m, before, AddLine(m, before, last, agv), last, agv, x);
      }
    }
  }

  lemma ReserveKeepsGroups(m: seq<Spirit>, occ: Occupancy, p: Plan)
    requires UniqueIds(m) && WellTyped(m, occ) && GroupsSound(m, occ) && PlanOpen(m, occ, p)
    ensures WellTyped(m, Reserve(m, occ, p.agv, p.goal, p.route))
    ensures GroupsSound(m, Reserve(m, occ, p.agv, p.goal, p.route))
  {
    hide GroupsSound, CommonGroups, GroupsOpenFor, WellTyped;
    AddStationKeeps(m, occ, p.goal, p.agv);
    var occ1 := AddStation(m, occ, p.goal, p.agv);
    forall l | l in p.route ensures GroupsOpenFor(m, occ1, l, p.agv) {
      RecordKeepsOpen(m, occ, occ1, p.goal, p.agv, l);
    }
    AddLinesKeep(m, occ1, p.route, p.agv);
  }

  /** A release by the owner of the spirit's groups closes no group for anybody. */
  lemma ForgetKeepsOpen(m: seq<Spirit>, occ: Occupancy, occ': Occupancy, spirit: int, who: int, x: int, agv: int)
    requires forall g :: g in occ.groups ==> occ.groups[g].spirits != []
    requires occ'.groups == Forget(occ.groups, CommonGroups(m, spirit), spirit, who)
    requires GroupsOpenFor(m, occ, spirit, who) && GroupsOpenFor(m, occ, x, agv)
    ensures GroupsOpenFor(m, occ', x, agv)
  {
    ForgetAt(occ.groups, CommonGroups(m, spirit), spirit, who);
    hide Forget, CommonGroups;
  }

  lemma GroupInvKept(net: Network, s: State, step: Step, s': State)
    requires IsMap(net.m) && GroupInv(net.m, s) && Next(net, s, step, s') && OwnedRelease(net.m, s.occ, step)
    ensures GroupInv(net.m, s')
  {
    hide WellTyped, GroupsSound, PathAnswer, PlanOpen;
    match step
    case PlanRoute(agv, last, start, goal, route, distance) =>
      PlannedIsOpen(net, s.occ, agv, last, start, goal, route, distance);
    case PlanDetour(agv, last, start, target, route, distance, halt) =>
      DetourIsOpen(net, s.occ, agv, last, start, target, route, distance, halt);
    case Commit =>
      ReserveKeepsGroups(net.m, s.occ, s.pending.value);
    case ReleaseStation(station, who) =>
      FreeStationTyped(net.m, s.occ, station, who);
      StationReleaseSoundIff(net.m, s.occ, station, who);
      PlanStaysOpen(net.m, s, s', station, who);
    case ReleaseLine(line, who) =>
      FreeLineTyped(net.m, s.occ, line, who);
      LineReleaseSoundIff(net.m, s.occ, line, who);
      PlanStaysOpen(net.m, s, s', line, who);
  }

  lemma PlanStaysOpen(m: seq<Spirit>, s: State, s': State, spirit: int, who: int)
    requires GroupInv(m, s) && s'.pending == s.pending && GroupsOpenFor(m, s.occ, spirit, who)
    requires s'.occ.groups == Forget(s.occ.groups, CommonGroups(m, spirit), spirit, who)
    ensures s.pending.Some? ==> PlanOpen(m, s'.occ, s.pending.value)
  {
    hide GroupsOpenFor, CommonGroups, Forget, WellTyped;
    if s.pending.Some? {
      var p := s.pending.value;
      ForgetKeepsOpen(m, s.occ, s'.occ, spirit, who, p.goal, p.agv);
      forall l | l in p.route ensures GroupsOpenFor(m, s'.occ, l, p.agv) {
        ForgetKeepsOpen(m, s.occ, s'.occ, spirit, who, l, p.agv);
      }
    }
  }

  /** In every run from an empty table whose releases are by the owners of the spirits' groups, the
      group records match the reservations in every state. */
  lemma GroupsAlwaysSound(net: Network, states: seq<State>, steps: seq<Step>)
    requires IsMap(net.m) && IsRun(net, states, steps)
    requires states[0] == State(Occupancy(map[], map[], map[]), None)
    requires forall i :: 0 <= i < |steps| ==> OwnedRelease(net.m, states[i].occ, steps[i])
    ensures forall i :: 0 <= i < |states| ==> GroupInv(net.m, states[i])
  {
    assert GroupInv(net.m, states[0]);
    hide GroupInv, Next, OwnedRelease;
    for i := 0 to |steps|
      invariant forall k :: 0 <= k <= i ==> GroupInv(net.m, states[k])
    {
      assert Next(net, states[i], steps[i], states[i + 1]);
      GroupInvKept(net, states[i], steps[i], states[i + 1]);
    }
  }

  lemma UnownedBreaks(net: Network, s: State, step: Step, s': State)
    requires IsMap(net.m) && GroupInv(net.m, s) && Next(net, s, step, s')
    requires TypedRelease(net.m, step) && !OwnedRelease(net.m, s.occ, step)
    ensures !GroupsSound(net.m, s'.occ)
  {
    hide WellTyped, GroupsSound, PathAnswer, PlanOpen;
    match step
    case ReleaseStation(station, who) => StationReleaseSoundIff(net.m, s.occ, station, who);
    case ReleaseLine(line, who) => LineReleaseSoundIff(net.m, s.occ, line, who);
    case _ =>
  }

  /** Over every run from an empty table: the records match the reservations in every state if and only
      if every release is by the owner of the spirit's recorded groups. */
  lemma GroupsSoundIffOwned(net: Network, states: seq<State>, steps: seq<Step>)
    requires IsMap(net.m) && IsRun(net, states, steps)
    requires states[0] == State(Occupancy(map[], map[], map[]), None)
    requires forall i :: 0 <= i < |steps| ==> TypedRelease(net.m, steps[i])
    ensures (forall i :: 0 <= i < |states| ==> GroupsSound(net.m, states[i].occ))
            <==> forall i :: 0 <= i < |steps| ==> OwnedRelease(net.m, states[i].occ, steps[i])
  {
    hide OwnedRelease, GroupsSound, GroupInv;
    if forall i :: 0 <= i < |steps| ==> OwnedRelease(net.m, states[i].occ, steps[i]) {
      GroupsAlwaysSound(net, states, steps);
      forall i | 0 <= i < |states| ensures GroupsSound(net.m, states[i].occ) {
        InvIsSound(net.m, states[i]);
      }
    }
    if forall i :: 0 <= i < |states| ==> GroupsSound(net.m, states[i].occ) {
      SoundIsOwned(net, states, steps);
    }
  }

  lemma InvIsSound(m: seq<Spirit>, s: State)
    requires GroupInv(m, s)
    ensures GroupsSound(m, s.occ)
  {}

  lemma NothingReserved(m: seq<Spirit>)
    ensures GroupInv(m, State(Occupancy(map[], map[], map[]), None))
  {}

  lemma {:induction false} SoundIsOwned(net: Network, states: seq<State>, steps: seq<Step>)
    requires IsMap(net.m) && IsRun(net, states, steps)
    requires states[0] == State(Occupancy(map[], map[], map[]), None)
    requires forall i :: 0 <= i < |steps| ==> TypedRelease(net.m, steps[i])
    requires forall i :: 0 <= i < |states| ==> GroupsSound(net.m, states[i].occ)
    ensures forall i :: 0 <= i < |steps| ==> OwnedRelease(net.m, states[i].occ, steps[i])
  {
    hide Next, OwnedRelease, TypedRelease, GroupsSound, GroupInv;
    NothingReserved(net.m);
    for i := 0 to |steps|
      invariant GroupInv(net.m, states[i])
      invariant forall k :: 0 <= k < i ==> OwnedRelease(net.m, states[k].occ, steps[k])
    {
      assert Next(net, states[i], steps[i], states[i + 1]);
      if !OwnedRelease(net.m, states[i].occ, steps[i]) {
        UnownedBreaks(net, states[i], steps[i], states[i + 1]);
      }
      GroupInvKept(net, states[i], steps[i], states[i + 1]);
    }
  }

  // ---------------------------------------------------------------- several releases by one vehicle

  /** The step gives back a spirit of the vehicle, a station as a station and a line as a line. */
  predicate OwnRelease(m: seq<Spirit>, step: Step, agv: int) {
    (step.ReleaseStation? || step.ReleaseLine?) && step.who == agv && TypedRelease(m, step)
  }

  /** The spirit a release gives back. */
  function SpiritOf(step: Step): int {
    match step
    case ReleaseStation(station, who) => station
    case ReleaseLine(line, who) => line
    case _ => 0
  }

  function AfterRelease(m: seq<Spirit>, occ: Occupancy, step: Step): Occupancy {
    match step
    case ReleaseStation(station, who) => FreeStation(m, occ, station, who)
    case ReleaseLine(line, who) => FreeLine(m, occ, line, who)
    case _ => occ
  }

  function AfterReleases(m: seq<Spirit>, occ: Occupancy, steps: seq<Step>): Occupancy {
    if steps == [] then occ
    else AfterRelease(m, AfterReleases(m, occ, steps[..|steps| - 1]), steps[|steps| - 1])
  }

  lemma {:induction false} AfterAppend(m: seq<Spirit>, occ: Occupancy, a: seq<Step>, b: seq<Step>)
    ensures AfterReleases(m, occ, a + b) == AfterReleases(m, AfterReleases(m, occ, a), b)
  {
    if b == [] {
      assert a + b == a;
    } else {
      AfterAppend(m, occ, a, b[..|b| - 1]);
      assert (a + b)[..|a + b| - 1] == a + b[..|b| - 1];
    }
  }

  /** Releases one after the other are a run. */
  lemma {:induction false} ReleasesAreRun(net: Network, s: State, steps: seq<Step>) returns (states: seq<State>)
    requires forall i :: 0 <= i < |steps| ==> (steps[i].ReleaseStation? || steps[i].ReleaseLine?) && steps[i].who > 0
    ensures IsRun(net, states, steps) && states[0] == s
    ensures states[|steps|] == s.(occ := AfterReleases(net.m, s.occ, steps))
  {
    hide FreeStation, FreeLine;
    if steps == [] {
      states := [s];
    } else {
      var front, last := steps[..|steps| - 1], steps[|steps| - 1];
      var before := ReleasesAreRun(net, s, front);
      var next := s.(occ := AfterReleases(net.m, s.occ, steps));
      states := before + [next];
      forall i | 0 <= i < |steps| ensures Next(net, states[i], steps[i], states[i + 1]) {
        if i < |front| {
          assert Next(net, before[i], front[i], before[i + 1]);
        }
      }
    }
  }

  lemma ReleaseKeeps(m: seq<Spirit>, occ: Occupancy, step: Step, agv: int, occ': Occupancy)
    requires UniqueIds(m) && GroupsRight(m, occ) && agv > 0
    requires OwnRelease(m, step, agv) && GroupsOpenFor(m, occ, SpiritOf(step), agv)
    requires occ' == AfterRelease(m, occ, step)
    ensures GroupsRight(m, occ') && forall x :: GroupsOpenFor(m, occ, x, agv) ==> GroupsOpenFor(m, occ', x, agv)
  {
    hide WellTyped, PathById, Forget, CommonGroups, GroupsOpenFor;
    assert forall g :: g in occ.groups ==> occ.groups[g].spirits != [];
    hide GroupsSound;
    assert occ'.groups == Forget(occ.groups, CommonGroups(m, SpiritOf(step)), SpiritOf(step), agv);
    if step.ReleaseStation? {
      FreeStationTyped(m, occ, step.station, agv);
      StationReleaseSoundIff(m, occ, step.station, agv);
    } else {
      FreeLineTyped(m, occ, step.line, agv);
      LineReleaseSoundIff(m, occ, step.line, agv);
    }
    forall x | GroupsOpenFor(m, occ, x, agv) ensures GroupsOpenFor(m, occ', x, agv) {
      ForgetKeepsOpen(m, occ, occ', SpiritOf(step), agv, x, agv);
    }
  }

  lemma {:induction false} ReleasesKeep(m: seq<Spirit>, occ: Occupancy, steps: seq<Step>, agv: int)
    requires UniqueIds(m) && GroupsRight(m, occ) && agv > 0
    requires forall st :: st in steps ==> OwnRelease(m, st, agv) && GroupsOpenFor(m, occ, SpiritOf(st), agv)
    ensures GroupsRight(m, AfterReleases(m, occ, steps))
    ensures forall x :: GroupsOpenFor(m, occ, x, agv) ==> GroupsOpenFor(m, AfterReleases(m, occ, steps), x, agv)
  {
    hide GroupsRight, AfterRelease, OwnRelease, GroupsOpenFor, SpiritOf;
    if steps != [] {
      var front, last := steps[..|steps| - 1], steps[|steps| - 1];
      assert steps == front + [last];
      ReleasesKeep(m, occ, front, agv);
      ReleaseKeeps(m, AfterReleases(m, occ, front), last, agv, AfterReleases(m, occ, steps));
    }
  }

  /** A release leaves no group of its spirit recorded for anybody else, and changes nothing another
      vehicle holds. */
  lemma ReleaseRewrites(m: seq<Spirit>, occ: Occupancy, step: Step, agv: int, occ': Occupancy)
    requires forall g :: g in occ.groups ==> occ.groups[g].spirits != []
    requires agv > 0 && OwnRelease(m, step, agv) && occ' == AfterRelease(m, occ, step)
    ensures forall g :: g in occ'.groups ==> occ'.groups[g].spirits != []
    ensures forall g :: g in occ'.groups && g in CommonGroups(m, SpiritOf(step)) ==> occ'.groups[g].agv == agv
    ensures forall g :: g in occ'.groups && g in occ.groups && occ.groups[g].agv == agv ==> occ'.groups[g].agv == agv
    ensures forall g :: g in occ'.groups ==> g in occ.groups
    ensures forall x, b :: b != agv && Holds(occ, x, b) ==> Holds(occ', x, b)
  {
    hide Forget, CommonGroups, PathById;
    ForgetAt(occ.groups, CommonGroups(m, SpiritOf(step)), SpiritOf(step), agv);
  }

  lemma {:induction false} ReleasesRewrite(m: seq<Spirit>, occ: Occupancy, steps: seq<Step>, agv: int, g: int)
    requires forall h :: h in occ.groups ==> occ.groups[h].spirits != []
    requires agv > 0 && forall st :: st in steps ==> OwnRelease(m, st, agv)
    ensures var occ' := AfterReleases(m, occ, steps);
      && (forall h :: h in occ'.groups ==> h in occ.groups && occ'.groups[h].spirits != [])
      && (forall x, b :: b != agv && Holds(occ, x, b) ==> Holds(occ', x, b))
      && (g in occ'.groups && (occ.groups[g].agv == agv || exists st :: st in steps && g in CommonGroups(m, SpiritOf(st)))
          ==> occ'.groups[g].agv == agv)
  {
    hide Holds, AfterRelease, OwnRelease, SpiritOf, CommonGroups;
    if steps != [] {
      var front, last := steps[..|steps| - 1], steps[|steps| - 1];
      assert steps == front + [last];
      assert forall st :: st in front ==> st in steps;
      ReleasesRewrite(m, occ, front, agv, g);
      ReleaseRewrites(m, AfterReleases(m, occ, front), last, agv, AfterReleases(m, occ, steps));
    }
  }

  /** A vehicle that gives back several spirits, one after the other, leaves the group records right if
      and only if, before it began, every recorded COMMON group of every one of them was its own. */
  lemma OwnReleasesSoundIff(m: seq<Spirit>, occ: Occupancy, steps: seq<Step>, agv: int)
    requires UniqueIds(m) && GroupsRight(m, occ) && agv > 0
    requires forall st :: st in steps ==> OwnRelease(m, st, agv)
    ensures GroupsSound(m, AfterReleases(m, occ, steps))
            <==> forall st :: st in steps ==> GroupsOpenFor(m, occ, SpiritOf(st), agv)
  {
    hide AfterReleases, OwnRelease, SpiritOf;
    if forall st :: st in steps ==> GroupsOpenFor(m, occ, SpiritOf(st), agv) {
      hide GroupsOpenFor, GroupsSound, WellTyped;
      ReleasesKeep(m, occ, steps, agv);
    } else {
      var st :| st in steps && !GroupsOpenFor(m, occ, SpiritOf(st), agv);
      var g :| g in CommonGroups(m, SpiritOf(st)) && g in occ.groups && occ.groups[g].agv != agv;
      ReleasesRewrite(m, occ, steps, agv, g);
      ForeignRecord(m, occ, SpiritOf(st), g, agv, AfterReleases(m, occ, steps));
    }
  }

  /** A recorded group that came to name the wrong vehicle, or nobody, is unsound. */
  lemma ForeignRecord(m: seq<Spirit>, occ: Occupancy, spirit: int, g: int, agv: int, occ': Occupancy)
    requires GroupsSound(m, occ) && g in CommonGroups(m, spirit) && g in occ.groups && occ.groups[g].agv != agv
    requires forall x, b :: b != agv && Holds(occ, x, b) ==> Holds(occ', x, b)
    requires g in occ'.groups ==> occ'.groups[g].agv == agv
    ensures !GroupsSound(m, occ')
  {
    hide Holds, GroupsWith;
    var h :| h in Groups(m, COMMON_GROUP) && h.id == g && spirit in h.spirits;
    var b, x := occ.groups[g].agv, occ.groups[g].spirits[0];
    assert GroupSound(occ, h) && Holds(occ, x, b) && Holds(occ', x, b);
  }
}
