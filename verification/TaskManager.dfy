/** The dispatcher: the manager's lists as mutable fields, its operations as methods proved against
    the steps of `Tasks`, and the choice of vehicle and route. */
module TaskManagers {
  import opened Wrappers
  import opened Maps
  import opened Reservations
  import opened LineSearch
  import opened Routes
  import opened RoadRules
  import opened MapManagers
  import opened Tasks
  import Traffic

  // ---------------------------------------------------------------- what a decision may be

  /** What planning sees: the network, the reservations, whether the map is being modified, the order
      in which vehicles are asked, and whether the project sends vehicles to halt points to wait, for
      tasks without and with a vehicle. */
  datatype Planner = Planner(net: Network, occ: Occupancy, modifying: bool, fleet: seq<int>,
                             detourAny: bool, detourOwn: bool)

  /** The answer of `getBestPath` without turning around. */
  ghost predicate BestAnswer(c: Planner, v: int, last: int, start: int, goal: int, route: seq<int>, d: int) {
    if c.modifying then route == [] && d == INFINITY
    else PathAnswer(c.net, c.occ, v, last, start, goal, false, route, d)
  }

  lemma BestUnique(c: Planner, v: int, last: int, start: int, goal: int, r: seq<int>, d: int, r': seq<int>, d': int)
    requires BestAnswer(c, v, last, start, goal, r, d) && BestAnswer(c, v, last, start, goal, r', d')
    ensures d == d' && (r == [] <==> r' == [])
    ensures d <= INFINITY && (r != [] ==> d < INFINITY)
  {
    hide IsRoute, RouteLength, MayPlan;
  }

  /** Where the vehicle is, or is heading when it is between stations. */
  function StandsAt(u: Vehicle): int {
    if u.now != 0 then u.now else u.next
  }

  /** The idle vehicle has a route to the goal. */
  ghost predicate IdleReaches(c: Planner, s: State, v: int, goal: int, route: seq<int>, d: int) {
    && v in s.vehicles && s.vehicles[v].idle && route != []
    && BestAnswer(c, v, s.vehicles[v].last, StandsAt(s.vehicles[v]), goal, route, d)
  }

  /** No idle vehicle has a route that is shorter. */
  ghost predicate NoIdleNearer(c: Planner, s: State, goal: int, d: int) {
    forall v, route, d' :: IdleReaches(c, s, v, goal, route, d') ==> d <= d'
  }

  function Aim(s: State, id: int): int {
    if HasNode(s, id) then s.tasks[id].nodes[s.tasks[id].index] else 0
  }

  predicate Assigned(s: State, id: int) {
    id in s.tasks && s.tasks[id].agv in s.vehicles
  }

  /** The vehicle the task names has this route to the goal. */
  ghost predicate OwnReaches(c: Planner, s: State, id: int, goal: int, route: seq<int>, d: int) {
    && Assigned(s, id) && route != []
    && var u := s.vehicles[s.tasks[id].agv];
       BestAnswer(c, s.tasks[id].agv, u.last, u.now, goal, route, d)
  }

  /** A route to the goal that may be given to the vehicle: the vehicle the task names, or, when it
      names none, the first in the fleet of the idle vehicles that no other idle vehicle beats. */
  ghost predicate RouteFor(c: Planner, s: State, id: int, v: int, route: seq<int>, d: int) {
    if Assigned(s, id) then v == s.tasks[id].agv && OwnReaches(c, s, id, Aim(s, id), route, d)
    else
      && IdleReaches(c, s, v, Aim(s, id), route, d) && NoIdleNearer(c, s, Aim(s, id), d)
      && FirstNearest(c, s, c.fleet, Aim(s, id), v, d)
  }

  /** Nobody who may serve the task has a route to its goal. */
  ghost predicate NoRoute(c: Planner, s: State, id: int) {
    if Assigned(s, id) then forall r, d :: !OwnReaches(c, s, id, Aim(s, id), r, d)
    else forall v, r, d :: !IdleReaches(c, s, v, Aim(s, id), r, d)
  }

  /** Where the vehicle at place `k` of the fleet is planned to wait: at a station, at its own nearest
      halt point `h`; between stations, at the one found for an idle vehicle before it. */
  ghost predicate TargetOf(c: Planner, s: State, aim: int, k: nat, h: int, target: int)
    requires k < |c.fleet|
  {
    if c.fleet[k] in s.vehicles && s.vehicles[c.fleet[k]].now != 0 then target == h
    else exists j :: 0 <= j < k && IsIdle(s, c.fleet[j]) && HaltPick(c, c.fleet[j], aim, target)
  }

  ghost predicate PlannedTo(c: Planner, s: State, aim: int, v: int, h: int, target: int) {
    exists k :: 0 <= k < |c.fleet| && c.fleet[k] == v && TargetOf(c, s, aim, k, h, target)
  }

  /** A route to a halt point.  The reserved halt point `h` is the vehicle's nearest one; the route
      leads to it, except that a vehicle between stations, for a task that names none, is planned to
      the one of a vehicle before it.  No idle vehicle at a station is nearer to its own. */
  ghost predicate DetourFor(c: Planner, s: State, id: int, v: int, route: seq<int>, h: int) {
    && v in s.vehicles && route != []
    && NearestHalt(c.net, c.occ, v, Aim(s, id), h)
    && exists target, d ::
         if Assigned(s, id) then v == s.tasks[id].agv && target == h && OwnReaches(c, s, id, target, route, d)
         else
           && IdleReaches(c, s, v, target, route, d) && PlannedTo(c, s, Aim(s, id), v, h, target)
           && NoHaltNearer(c, s, Aim(s, id), d)
  }

  /** No idle vehicle at a station is nearer to its nearest halt point. */
  ghost predicate NoHaltNearer(c: Planner, s: State, aim: int, d: int) {
    forall v :: IdleAtStation(s, v) ==> HaltNotNearer(c, s, v, aim, d)
  }

  /** The vehicle is the first in the list of those that are nearest. */
  ghost predicate FirstNearest(c: Planner, s: State, fleet: seq<int>, goal: int, best: int, d: int) {
    exists i :: 0 <= i < |fleet| && fleet[i] == best && NoneBefore(c, s, fleet, goal, i, d)
  }

  ghost predicate NoneBefore(c: Planner, s: State, fleet: seq<int>, goal: int, i: nat, d: int)
    requires i <= |fleet|
  {
    forall k, r, d' | 0 <= k < i && IdleReaches(c, s, fleet[k], goal, r, d') :: d < d'
  }

  /** None of the first vehicles of the list is nearer. */
  ghost predicate NoneNearer(c: Planner, s: State, fleet: seq<int>, goal: int, i: nat, d: int)
    requires i <= |fleet|
  {
    forall k, r, d' | 0 <= k < i && IdleReaches(c, s, fleet[k], goal, r, d') :: d <= d'
  }

  /** What `getNearestHaltStation` may answer. */
  ghost predicate HaltPick(c: Planner, v: int, aim: int, h: int) {
    if h == -1 then NoNearerHalt(c.net, c.occ, v, aim, INFINITY) else NearestHalt(c.net, c.occ, v, aim, h)
  }

  /** The vehicle cannot reach its nearest halt point. */
  ghost predicate HaltMissed(c: Planner, s: State, v: int, aim: int) {
    exists h :: HaltPick(c, v, aim, h) && forall r, d :: !IdleReaches(c, s, v, h, r, d)
  }

  predicate IsIdle(s: State, v: int) {
    v in s.vehicles && s.vehicles[v].idle
  }

  predicate IdleAtStation(s: State, v: int) {
    v in s.vehicles && s.vehicles[v].idle && s.vehicles[v].now != 0
  }

  /** The vehicle's nearest halt point is not nearer to it than this. */
  ghost predicate HaltNotNearer(c: Planner, s: State, v: int, aim: int, d: int) {
    exists h :: HaltPick(c, v, aim, h) && forall r, d' :: IdleReaches(c, s, v, h, r, d') ==> d <= d'
  }

  /** So far for the first vehicles of the list. */
  ghost predicate HaltsChecked(c: Planner, s: State, fleet: seq<int>, goal: int, i: nat, d: int)
    requires i <= |fleet|
  {
    forall k | 0 <= k < i && IdleAtStation(s, fleet[k]) :: HaltNotNearer(c, s, fleet[k], goal, d)
  }

  /** The vehicle, the halt point it is to reserve, and its route. */
  ghost predicate HaltChosen(c: Planner, s: State, v: int, aim: int, halt: int, route: seq<int>, d: int) {
    && HaltPick(c, v, aim, halt)
    && exists target :: IdleReaches(c, s, v, target, route, d) && PlannedTo(c, s, aim, v, halt, target)
  }

  predicate StandsAtHalt(c: Planner, s: State, v: int)
    requires v in s.vehicles
  {
    var here := PointOf(c.net.m, s.vehicles[v].now);
    here.Some? && here.value.pointType.Halt?
  }

  /** Why nobody is sent to wait at a halt point. */
  ghost predicate NoDetour(c: Planner, s: State, id: int) {
    if Assigned(s, id) then
      var v := s.tasks[id].agv;
      || !c.detourOwn
      || StandsAtHalt(c, s, v)
      || exists h :: HaltPick(c, v, Aim(s, id), h) && forall r, d :: !OwnReaches(c, s, id, h, r, d)
    else
      || !c.detourAny
      || (forall v :: IdleAtStation(s, v) ==> HaltMissed(c, s, v, Aim(s, id)))
  }

  /** The vehicle the task names is busy with another task. */
  predicate BusyElsewhere(s: State, id: int) {
    Assigned(s, id) && s.vehicles[s.tasks[id].agv].task != id && !s.vehicles[s.tasks[id].agv].idle
  }

  /** The node to execute has no station, and the vehicle the task names is serving it. */
  predicate Resumes(s: State, id: int) {
    HasNode(s, id) && Assigned(s, id) && Aim(s, id) == 0 && s.vehicles[s.tasks[id].agv].task == id
  }

  /** A detour is for projects that make them, and never for a named vehicle that stands at a halt point. */
  predicate DetourAllowed(c: Planner, s: State, id: int) {
    if Assigned(s, id) then c.detourOwn && !StandsAtHalt(c, s, s.tasks[id].agv) else c.detourAny
  }

  /** The index is behind the last node. */
  predicate Ended(s: State, id: int) {
    id in s.tasks && s.tasks[id].index >= |s.tasks[id].nodes|
  }

  /** The task waits for a route. */
  predicate Seeks(s: State, id: int) {
    HasNode(s, id) && !Resumes(s, id) && !BusyElsewhere(s, id)
  }

  /** What `distributeTask` may do: which step it takes and which reservations it writes. */
  ghost predicate Decided(c: Planner, s: State, id: int, step: Option<Step>, occ': Occupancy) {
    match step
    case None =>
      && occ' == c.occ && HasNode(s, id) && !Resumes(s, id)
      && (BusyElsewhere(s, id) || (NoRoute(c, s, id) && NoDetour(c, s, id)))
    case Some(Start(x, v, route, None)) =>
      && x == id && Seeks(s, id) && (exists d :: RouteFor(c, s, id, v, route, d))
      && occ' == Reserve(c.net.m, c.occ, v, Aim(s, id), route)
    case Some(Start(x, v, route, Some(h))) =>
      && x == id && Seeks(s, id) && NoRoute(c, s, id) && DetourAllowed(c, s, id) && DetourFor(c, s, id, v, route, h)
      && occ' == Reserve(c.net.m, c.occ, v, h, route)
    case Some(Resume(x)) => x == id && occ' == c.occ && Resumes(s, id)
    case Some(Wrap(x)) => x == id && occ' == c.occ && Ended(s, id) && s.tasks[id].runTimes > 1
    case Some(Finish(x)) => x == id && occ' == c.occ && Ended(s, id) && s.tasks[id].runTimes <= 1
    case Some(_) => false
  }

  /** The task is sent to its node, not to a halt point. */
  predicate ToNode(step: Option<Step>) {
    step.Some? && step.value.Start? && step.value.halt == None
  }

  /** A task whose index is behind its last node is finished, or begins its next round. */
  lemma EndedDecision(c: Planner, s: State, id: int, step: Option<Step>, occ': Occupancy)
    requires Decided(c, s, id, step, occ') && id in s.tasks
    ensures step == Some(Step.Finish(id)) <==> s.tasks[id].index >= |s.tasks[id].nodes| && s.tasks[id].runTimes <= 1
    ensures step == Some(Wrap(id)) <==> s.tasks[id].index >= |s.tasks[id].nodes| && s.tasks[id].runTimes > 1
  {
    hide NoRoute, NoDetour, RouteFor, DetourFor, Reserve, DetourAllowed;
  }

  /** The decision for a task that names a vehicle.  While the vehicle serves another task nothing happens.
      When it serves this one and the node has no station, the task is resumed.  Otherwise it is sent to its
      node if and only if the vehicle has a route there. */
  lemma OwnDecision(c: Planner, s: State, id: int, step: Option<Step>, occ': Occupancy, v: int, u: Vehicle, goal: int)
    requires Decided(c, s, id, step, occ')
    requires id in s.tasks && s.tasks[id].index < |s.tasks[id].nodes| && goal == s.tasks[id].nodes[s.tasks[id].index]
    requires v == s.tasks[id].agv && v in s.vehicles && u == s.vehicles[v]
    ensures u.task != id && !u.idle ==> step == None && occ' == c.occ
    ensures step == Some(Resume(id)) <==> u.task == id && goal == 0
    ensures (u.task == id && goal != 0) || (u.task != id && u.idle) ==>
              forall route, d :: route != [] && BestAnswer(c, v, u.last, u.now, goal, route, d) ==> ToNode(step)
    ensures ToNode(step) ==>
              && (u.task == id || u.idle) && step.value.v == v && step.value.path != []
              && exists d :: BestAnswer(c, v, u.last, u.now, goal, step.value.path, d)
  {
    hide BestAnswer, NoDetour, DetourFor, Reserve, DetourAllowed;
    if ToNode(step) {
      var d :| RouteFor(c, s, id, step.value.v, step.value.path, d);
      assert BestAnswer(c, v, u.last, u.now, goal, step.value.path, d);
    } else if Seeks(s, id) {
      forall route, d | BestAnswer(c, v, u.last, u.now, goal, route, d) ensures route == [] {
        assert !OwnReaches(c, s, id, goal, route, d);
      }
    }
  }

  /** The decision for a task that names no vehicle: it is sent to its node as soon as an idle vehicle has a
      route there, from where it is or, between stations, from where it is heading. */
  lemma AnyGoes(c: Planner, s: State, id: int, step: Option<Step>, occ': Occupancy, goal: int,
                w: int, at: int, route: seq<int>, d: int)
    requires Decided(c, s, id, step, occ')
    requires id in s.tasks && s.tasks[id].index < |s.tasks[id].nodes| && goal == s.tasks[id].nodes[s.tasks[id].index]
    requires s.tasks[id].agv !in s.vehicles
    requires w in s.vehicles && s.vehicles[w].idle
    requires at == if s.vehicles[w].now != 0 then s.vehicles[w].now else s.vehicles[w].next
    requires route != [] && BestAnswer(c, w, s.vehicles[w].last, at, goal, route, d)
    ensures ToNode(step)
  {
    hide BestAnswer, NoDetour, DetourFor, Reserve, DetourAllowed, RouteFor;
    assert Aim(s, id) == goal && !Assigned(s, id) && IdleReaches(c, s, w, goal, route, d);
    assert ToNode(step) || NoRoute(c, s, id);
  }

  /** And then an idle vehicle goes whose route is not longer than that of any other, and shorter than that of
      any before it in the fleet. */
  lemma AnyNearest(c: Planner, s: State, id: int, step: Option<Step>, occ': Occupancy, goal: int)
    returns (v: int, at: int, d: int, k: nat)
    requires Decided(c, s, id, step, occ') && ToNode(step)
    requires id in s.tasks && s.tasks[id].index < |s.tasks[id].nodes| && goal == s.tasks[id].nodes[s.tasks[id].index]
    requires s.tasks[id].agv !in s.vehicles
    ensures v == step.value.v && v in s.vehicles && s.vehicles[v].idle && step.value.path != []
    ensures at == if s.vehicles[v].now != 0 then s.vehicles[v].now else s.vehicles[v].next
    ensures BestAnswer(c, v, s.vehicles[v].last, at, goal, step.value.path, d)
    ensures k < |c.fleet| && c.fleet[k] == v
    ensures forall w, x, route, d' |
              && w in s.vehicles && s.vehicles[w].idle && route != []
              && x == (if s.vehicles[w].now != 0 then s.vehicles[w].now else s.vehicles[w].next)
              && BestAnswer(c, w, s.vehicles[w].last, x, goal, route, d')
            :: d <= d' && (w in c.fleet[..k] ==> d < d')
  {
    hide BestAnswer, NoDetour, DetourFor, Reserve, DetourAllowed;
    v := step.value.v;
    d :| RouteFor(c, s, id, v, step.value.path, d);
    k :| 0 <= k < |c.fleet| && c.fleet[k] == v && NoneBefore(c, s, c.fleet, goal, k, d);
    at := StandsAt(s.vehicles[v]);
    forall w, x, route, d' |
      && w in s.vehicles && s.vehicles[w].idle && route != []
      && x == (if s.vehicles[w].now != 0 then s.vehicles[w].now else s.vehicles[w].next)
      && BestAnswer(c, w, s.vehicles[w].last, x, goal, route, d')
      ensures d <= d' && (w in c.fleet[..k] ==> d < d')
    {
      assert IdleReaches(c, s, w, goal, route, d');
      if w in c.fleet[..k] {
        var j :| 0 <= j < k && c.fleet[j] == w;
      }
    }
  }

  /** A vehicle that a task names and that has no route to its node waits, or goes to wait at the halt point
      nearest to the node.  It goes only in projects that make such detours, never when it already stands at a
      halt point, and otherwise whenever it has a route there. */
  lemma OwnDetours(c: Planner, s: State, id: int, step: Option<Step>, occ': Occupancy, v: int, u: Vehicle, goal: int)
    requires IsMap(c.net.m) && Decided(c, s, id, step, occ')
    requires id in s.tasks && s.tasks[id].index < |s.tasks[id].nodes| && goal == s.tasks[id].nodes[s.tasks[id].index]
    requires v == s.tasks[id].agv && v in s.vehicles && u == s.vehicles[v]
    requires (u.task == id && goal != 0) || (u.task != id && u.idle)
    ensures step.Some? && !ToNode(step) ==>
              && step.value.Start? && step.value.v == v && step.value.path != [] && c.detourOwn
              && (forall p :: Point(p) in c.net.m && p.id == u.now ==> p.pointType != Halt)
              && NearestHalt(c.net, c.occ, v, goal, step.value.halt.value)
              && exists d :: BestAnswer(c, v, u.last, u.now, step.value.halt.value, step.value.path, d)
    ensures step == None && c.detourOwn && (forall p :: Point(p) in c.net.m && p.id == u.now ==> p.pointType != Halt) ==>
              exists h :: HaltPick(c, v, goal, h) &&
                forall route, d :: BestAnswer(c, v, u.last, u.now, h, route, d) ==> route == []
  {
    StandsMeans(c, s, v);
    hide BestAnswer, Reserve, NearestHalt, HaltPick, StandsAtHalt, IsMap;
    if step == None {
      assert NoDetour(c, s, id);
      if c.detourOwn && !StandsAtHalt(c, s, v) {
        var h :| HaltPick(c, v, goal, h) && forall r, d :: !OwnReaches(c, s, id, h, r, d);
        forall route, d | BestAnswer(c, v, u.last, u.now, h, route, d) ensures route == [] {
          assert !OwnReaches(c, s, id, h, route, d);
        }
      }
    } else if !ToNode(step) {
      var h := step.value.halt.value;
      var target, d :| target == h && OwnReaches(c, s, id, target, step.value.path, d);
      assert BestAnswer(c, v, u.last, u.now, h, step.value.path, d);
    }
  }

  /** When no idle vehicle has a route to the node, one may be sent to wait, in projects that make such detours.
      A vehicle at a station goes to the halt point nearest to the node.  One between stations goes to the one
      found for an idle vehicle before it in the fleet, and reserves its own nearest one. */
  lemma AnyDetours(c: Planner, s: State, id: int, step: Option<Step>, occ': Occupancy, goal: int)
    returns (v: int, u: Vehicle, k: nat, h: int, target: int, d: int)
    requires Decided(c, s, id, step, occ') && step.Some? && step.value.Start? && step.value.halt.Some?
    requires id in s.tasks && s.tasks[id].index < |s.tasks[id].nodes| && goal == s.tasks[id].nodes[s.tasks[id].index]
    requires s.tasks[id].agv !in s.vehicles
    ensures c.detourAny && v == step.value.v && h == step.value.halt.value && step.value.path != []
    ensures k < |c.fleet| && c.fleet[k] == v && v in s.vehicles && u == s.vehicles[v] && u.idle
    ensures NearestHalt(c.net, c.occ, v, goal, h)
    ensures BestAnswer(c, v, u.last, if u.now != 0 then u.now else u.next, target, step.value.path, d)
    ensures u.now != 0 ==> target == h
    ensures u.now == 0 ==> exists j :: 0 <= j < k && c.fleet[j] in s.vehicles && s.vehicles[c.fleet[j]].idle
                                       && HaltPick(c, c.fleet[j], goal, target)
    ensures forall w :: w in s.vehicles && s.vehicles[w].idle && s.vehicles[w].now != 0 ==>
              exists x :: HaltPick(c, w, goal, x) && forall r, e ::
                r != [] && BestAnswer(c, w, s.vehicles[w].last, s.vehicles[w].now, x, r, e) ==> d <= e
    ensures occ' == Reserve(c.net.m, c.occ, v, h, step.value.path)
  {
    hide BestAnswer, NoDetour, Reserve, NearestHalt, HaltPick, NoRoute;
    v, h := step.value.v, step.value.halt.value;
    target, d :|
      && IdleReaches(c, s, v, target, step.value.path, d) && PlannedTo(c, s, Aim(s, id), v, h, target)
      && NoHaltNearer(c, s, Aim(s, id), d);
    forall w | w in s.vehicles && s.vehicles[w].idle && s.vehicles[w].now != 0
      ensures exists x :: HaltPick(c, w, goal, x) && forall r, e ::
                r != [] && BestAnswer(c, w, s.vehicles[w].last, s.vehicles[w].now, x, r, e) ==> d <= e
    {
      NoneAtStationNearer(c, s, w, goal, d);
    }
    hide NoHaltNearer;
    u := s.vehicles[v];
    k :| 0 <= k < |c.fleet| && c.fleet[k] == v && TargetOf(c, s, Aim(s, id), k, h, target);
    if u.now == 0 {
      var j :| 0 <= j < k && IsIdle(s, c.fleet[j]) && HaltPick(c, c.fleet[j], Aim(s, id), target);
    }
  }

  lemma NoneAtStationNearer(c: Planner, s: State, w: int, goal: int, d: int)
    requires NoHaltNearer(c, s, goal, d) && w in s.vehicles && s.vehicles[w].idle && s.vehicles[w].now != 0
    ensures exists x :: HaltPick(c, w, goal, x) && forall r, e ::
              r != [] && BestAnswer(c, w, s.vehicles[w].last, s.vehicles[w].now, x, r, e) ==> d <= e
  {
    hide BestAnswer, HaltPick;
    assert IdleAtStation(s, w);
    var x :| HaltPick(c, w, goal, x) && forall r, e :: IdleReaches(c, s, w, x, r, e) ==> d <= e;
    forall r, e | r != [] && BestAnswer(c, w, s.vehicles[w].last, s.vehicles[w].now, x, r, e) ensures d <= e {
      assert IdleReaches(c, s, w, x, r, e);
    }
  }

  lemma StandsMeans(c: Planner, s: State, v: int)
    requires IsMap(c.net.m) && v in s.vehicles
    ensures StandsAtHalt(c, s, v) <==> exists p :: Point(p) in c.net.m && p.id == s.vehicles[v].now && p.pointType == Halt
  {
    var m, now := c.net.m, s.vehicles[v].now;
    SpiritByIdFinds(m, now);
    forall p | Point(p) in m && p.id == now ensures PointOf(m, now) == Some(p) {
      var i :| 0 <= i < |m| && m[i] == Point(p);
      SpiritByIdAt(m, i);
    }
  }

  /** The state after a decision, while the dispatcher has not yet taken the task out of its queue. */
  function Handed(s: State, step: Step): State
    requires Enabled(s, step)
  {
    Apply(s, step).(queues := s.queues)
  }

  lemma HandedFinish(s: State, id: int)
    requires Queued(s, id) && !HasNode(s, id) && s.tasks[id].runTimes <= 1
    ensures Enabled(s, Finish(id)) && Handed(s, Finish(id)) == FinishTask(s, id)
  {
    hide Unqueue;
  }

  lemma HandedWrap(s: State, id: int)
    requires Queued(s, id) && !HasNode(s, id) && s.tasks[id].runTimes > 1
    ensures Enabled(s, Wrap(id)) && Handed(s, Wrap(id)) == WrapTask(s, id)
  {}

  lemma HandedStart(s: State, id: int, v: int, route: seq<int>, halt: Option<int>)
    requires Queued(s, id) && HasNode(s, id) && MayServe(s, id, v)
    ensures Enabled(s, Start(id, v, route, halt))
    ensures Handed(s, Start(id, v, route, halt)) == StartOn(s, id, v, route, halt)
  {
    hide Unqueue;
  }

  /** The step is a decision about this task. */
  predicate Distributes(step: Step, id: int) {
    (step.Start? || step.Resume? || step.Wrap? || step.Finish?) && step.id == id
  }

  lemma DecidedDistributes(c: Planner, s: State, id: int, step: Step, occ': Occupancy)
    requires Decided(c, s, id, Some(step), occ')
    ensures Distributes(step, id)
  {
    hide RouteFor, NoRoute, DetourFor, Reserve;
  }

  /** Tasks are offered one after the other; each is left waiting or takes a step. */
  ghost predicate SweepOf(states: seq<State>, offered: seq<int>, decisions: seq<Option<Step>>) {
    && |states| == |offered| + 1 == |decisions| + 1
    && forall i | 0 <= i < |offered| :: Decides(states[i], offered[i], decisions[i], states[i + 1])
  }

  ghost predicate Decides(s: State, id: int, decision: Option<Step>, s': State) {
    match decision
    case None => s' == s
    case Some(step) => Distributes(step, id) && Enabled(s, step) && s' == Apply(s, step)
  }

  lemma SweepOnce(states: seq<State>, offered: seq<int>, decisions: seq<Option<Step>>,
                  id: int, decision: Option<Step>, s': State)
    requires SweepOf(states, offered, decisions) && Decides(states[|states| - 1], id, decision, s')
    ensures SweepOf(states + [s'], offered + [id], decisions + [decision])
  {
    hide Decides;
  }

  /** The queues one after the other. */
  function Flatten(keys: seq<int>, queues: map<int, seq<int>>): seq<int> {
    if keys == [] then [] else Flatten(keys[..|keys| - 1], queues) + QueueOf(queues, keys[|keys| - 1])
  }

  predicate Ascending(keys: seq<int>) {
    forall i, j :: 0 <= i < j < |keys| ==> keys[i] < keys[j]
  }

  // ---------------------------------------------------------------- each branch is a decision

  lemma NearestIsDecision(c: Planner, s: State, id: int, v: int, route: seq<int>, d: int)
    requires Queued(s, id) && HasNode(s, id) && !Assigned(s, id)
    requires IdleReaches(c, s, v, Aim(s, id), route, d) && NoIdleNearer(c, s, Aim(s, id), d)
    requires FirstNearest(c, s, c.fleet, Aim(s, id), v, d)
    ensures v in s.vehicles && Enabled(s, Start(id, v, route, None))
    ensures Handed(s, Start(id, v, route, None)) == StartOn(s, id, v, route, None)
    ensures Decided(c, s, id, Some(Start(id, v, route, None)), Reserve(c.net.m, c.occ, v, Aim(s, id), route))
  {
    hide NoIdleNearer, FirstNearest, Reserve, Handed, BestAnswer, Queued;
    HandedStart(s, id, v, route, None);
    assert RouteFor(c, s, id, v, route, d);
  }

  lemma NobodyReaches(c: Planner, s: State, id: int)
    requires !Assigned(s, id) && NoIdleNearer(c, s, Aim(s, id), INFINITY)
    ensures NoRoute(c, s, id)
  {
    hide BestAnswer, Aim;
    forall v, r, d ensures !IdleReaches(c, s, v, Aim(s, id), r, d) {
      ReachingIsFinite(c, s, v, Aim(s, id), r, d);
    }
  }

  lemma ReachingIsFinite(c: Planner, s: State, v: int, goal: int, r: seq<int>, d: int)
    ensures IdleReaches(c, s, v, goal, r, d) ==> d < INFINITY
  {
    hide BestAnswer;
    if IdleReaches(c, s, v, goal, r, d) {
      BestUnique(c, v, s.vehicles[v].last, StandsAt(s.vehicles[v]), goal, r, d, r, d);
    }
  }

  lemma DetourIsDecision(c: Planner, s: State, id: int, v: int, route: seq<int>, h: int, d: int)
    requires Queued(s, id) && HasNode(s, id) && !Assigned(s, id) && NoRoute(c, s, id)
    requires HaltChosen(c, s, v, Aim(s, id), h, route, d) && NoHaltNearer(c, s, Aim(s, id), d) && c.detourAny
    ensures v in s.vehicles && Enabled(s, Start(id, v, route, Some(h)))
    ensures Handed(s, Start(id, v, route, Some(h))) == StartOn(s, id, v, route, Some(h))
    ensures Decided(c, s, id, Some(Start(id, v, route, Some(h))), Reserve(c.net.m, c.occ, v, h, route))
  {
    hide Reserve, Handed, BestAnswer, Queued, NoRoute, NearestHalt, PlannedTo, NoHaltNearer;
    var target :| IdleReaches(c, s, v, target, route, d) && PlannedTo(c, s, Aim(s, id), v, h, target);
    DetourTarget(c, s, v, Aim(s, id), h, target, route, d);
    HandedStart(s, id, v, route, Some(h));
    assert DetourFor(c, s, id, v, route, h);
  }

  /** A goal with a route to it is a point that is free for the vehicle. */
  lemma ReachedIsFree(c: Planner, v: int, last: int, start: int, goal: int, route: seq<int>, d: int)
    requires BestAnswer(c, v, last, start, goal, route, d) && route != []
    ensures !c.modifying && goal > 0 && StationFree(c.occ, goal, v) && IsPoint(c.net.m, goal)
  {}

  /** A vehicle with a route to wait somewhere has a nearest halt point of its own, and either that is
      where the route leads, or it is a station the vehicle already owns. */
  lemma DetourTarget(c: Planner, s: State, v: int, aim: int, h: int, target: int, route: seq<int>, d: int)
    requires HaltPick(c, v, aim, h) && IdleReaches(c, s, v, target, route, d) && PlannedTo(c, s, aim, v, h, target)
    ensures h != -1 && (h == target || Owner(c.occ, h) == v)
  {
    hide BestAnswer, NearestHalt, NoNearerHalt, Owner, StationFree;
    ReachedIsFree(c, v, s.vehicles[v].last, StandsAt(s.vehicles[v]), target, route, d);
    var k :| 0 <= k < |c.fleet| && c.fleet[k] == v && TargetOf(c, s, aim, k, h, target);
    if s.vehicles[v].now == 0 {
      var j :| 0 <= j < k && IsIdle(s, c.fleet[j]) && HaltPick(c, c.fleet[j], aim, target);
      SomeHalt(c.net, c.occ, aim, c.fleet[j], target, v);
      NearestHaltsDiffer(c.net, c.occ, aim, c.fleet[j], target, v, h);
    }
  }

  /** No route leads to station -1. */
  lemma NowhereReached(c: Planner, v: int, last: int, start: int, route: seq<int>, d: int)
    requires BestAnswer(c, v, last, start, -1, route, d)
    ensures route == []
  {}

  lemma WaitIsDecision(c: Planner, s: State, id: int, v: int, route: seq<int>, h: int, d: int)
    requires HasNode(s, id) && !Assigned(s, id) && NoRoute(c, s, id)
    requires NoHaltNearer(c, s, Aim(s, id), d)
    requires if v == 0 then d == INFINITY else HaltChosen(c, s, v, Aim(s, id), h, route, d)
    requires !(v != 0 && h != -1 && c.detourAny)
    ensures Decided(c, s, id, None, c.occ)
  {
    hide NoRoute, BestAnswer, HaltPick, PlannedTo, IdleReaches;
    assert NoDetour(c, s, id) by {
      if c.detourAny && v == 0 {
        forall w | IdleAtStation(s, w) ensures HaltMissed(c, s, w, Aim(s, id)) {
          NoHaltReached(c, s, w, Aim(s, id));
        }
      } else if c.detourAny {
        var target :| IdleReaches(c, s, v, target, route, d) && PlannedTo(c, s, Aim(s, id), v, h, target);
        DetourTarget(c, s, v, Aim(s, id), h, target, route, d);
        assert false;
      }
    }
  }

  lemma NoHaltReached(c: Planner, s: State, v: int, aim: int)
    requires HaltNotNearer(c, s, v, aim, INFINITY)
    ensures HaltMissed(c, s, v, aim)
  {
    hide HaltPick, IdleReaches;
    var h :| HaltPick(c, v, aim, h) && forall r, d' :: IdleReaches(c, s, v, h, r, d') ==> INFINITY <= d';
    forall r, d ensures !IdleReaches(c, s, v, h, r, d) {
      ReachingIsFinite(c, s, v, h, r, d);
    }
  }

  lemma BusyIsDecision(c: Planner, s: State, id: int)
    requires HasNode(s, id) && !Resumes(s, id) && BusyElsewhere(s, id)
    ensures Decided(c, s, id, None, c.occ)
  {
    hide NoRoute, NoDetour;
  }

  lemma OwnIsDecision(c: Planner, s: State, id: int, route: seq<int>, d: int)
    requires Queued(s, id) && HasNode(s, id) && Assigned(s, id) && Seeks(s, id)
    requires OwnReaches(c, s, id, Aim(s, id), route, d)
    ensures var v := s.tasks[id].agv;
      && Enabled(s, Start(id, v, route, None))
      && Handed(s, Start(id, v, route, None)) == StartOn(s, id, v, route, None)
      && Decided(c, s, id, Some(Start(id, v, route, None)), Reserve(c.net.m, c.occ, v, Aim(s, id), route))
  {
    hide Reserve, Handed, BestAnswer, Queued, OwnReaches;
    HandedStart(s, id, s.tasks[id].agv, route, None);
    assert RouteFor(c, s, id, s.tasks[id].agv, route, d);
  }

  lemma OwnDetourIsDecision(c: Planner, s: State, id: int, route: seq<int>, h: int, d: int)
    requires Queued(s, id) && HasNode(s, id) && Assigned(s, id) && Seeks(s, id) && NoRoute(c, s, id)
    requires c.detourOwn && !StandsAtHalt(c, s, s.tasks[id].agv)
    requires HaltPick(c, s.tasks[id].agv, Aim(s, id), h) && h != -1 && OwnReaches(c, s, id, h, route, d)
    ensures var v := s.tasks[id].agv;
      && Enabled(s, Start(id, v, route, Some(h)))
      && Handed(s, Start(id, v, route, Some(h))) == StartOn(s, id, v, route, Some(h))
      && Decided(c, s, id, Some(Start(id, v, route, Some(h))), Reserve(c.net.m, c.occ, v, h, route))
  {
    hide Reserve, Handed, BestAnswer, Queued, NoRoute, NearestHalt;
    HandedStart(s, id, s.tasks[id].agv, route, Some(h));
    assert DetourFor(c, s, id, s.tasks[id].agv, route, h);
  }

  lemma OwnWaits(c: Planner, s: State, id: int, h: int)
    requires HasNode(s, id) && Assigned(s, id) && !Resumes(s, id)
    requires forall r, d :: !OwnReaches(c, s, id, Aim(s, id), r, d)
    requires
      || !c.detourOwn
      || StandsAtHalt(c, s, s.tasks[id].agv)
      || (HaltPick(c, s.tasks[id].agv, Aim(s, id), h) && forall r, d :: !OwnReaches(c, s, id, h, r, d))
    ensures Decided(c, s, id, None, c.occ)
  {
    hide OwnReaches, HaltPick;
  }

  lemma OwnToNowhere(c: Planner, s: State, id: int)
    ensures forall r, d :: !OwnReaches(c, s, id, -1, r, d)
  {
    hide BestAnswer;
    forall r, d ensures !OwnReaches(c, s, id, -1, r, d) {
      if Assigned(s, id) {
        var v := s.tasks[id].agv;
        if BestAnswer(c, v, s.vehicles[v].last, s.vehicles[v].now, -1, r, d) {
          NowhereReached(c, v, s.vehicles[v].last, s.vehicles[v].now, r, d);
        }
      }
    }
  }

  lemma EndedIsDecision(c: Planner, s: State, id: int, step: Step)
    requires id in s.tasks && !HasNode(s, id)
    requires step == if s.tasks[id].runTimes > 1 then Wrap(id) else Step.Finish(id)
    ensures Decided(c, s, id, Some(step), c.occ)
  {}

  lemma ResumeIsDecision(c: Planner, s: State, id: int)
    requires Queued(s, id) && HasNode(s, id) && Aim(s, id) == 0
    requires s.tasks[id].agv in s.vehicles && s.vehicles[s.tasks[id].agv].task == id
    ensures Enabled(s, Resume(id)) && Handed(s, Resume(id)) == Execute(s, id)
    ensures Decided(c, s, id, Some(Resume(id)), c.occ)
  {
    hide Unqueue;
  }

  // ---------------------------------------------------------------- decisions and reservations

  /** What every dispatch was planned with: an answer of the planner to `target`, and a reserved
      station that is `target` or the vehicle's own. */
  lemma DecidedPlan(c: Planner, s: State, id: int, v: int, route: seq<int>, halt: Option<int>, occ': Occupancy)
    returns (last: int, start: int, target: int, d: int, reserved: int)
    requires IsMap(c.net.m) && Decided(c, s, id, Some(Start(id, v, route, halt)), occ')
    ensures v in s.vehicles && route != [] && !c.modifying
    ensures PathAnswer(c.net, c.occ, v, last, start, target, false, route, d)
    ensures reserved == if halt.Some? then halt.value else Aim(s, id)
    ensures halt.None? ==> reserved == target
    ensures reserved == target || Owner(c.occ, reserved) == v
    ensures IsPoint(c.net.m, reserved) && StationFree(c.occ, reserved, v)
    ensures occ' == Reserve(c.net.m, c.occ, v, reserved, route)
  {
    hide PathAnswer, NoIdleNearer, FirstNearest, NoRoute, Reserve, IsMap, NearestHalt, StationFree, IsPoint, NoHaltNearer;
    match halt
    case None =>
      d :| RouteFor(c, s, id, v, route, d);
      last, target, reserved := s.vehicles[v].last, Aim(s, id), Aim(s, id);
      start := if Assigned(s, id) then s.vehicles[v].now else StandsAt(s.vehicles[v]);
      ReachedIsFree(c, v, last, start, target, route, d);
    case Some(h) =>
      target, d :|
        if Assigned(s, id) then v == s.tasks[id].agv && target == h && OwnReaches(c, s, id, target, route, d)
        else
          && IdleReaches(c, s, v, target, route, d) && PlannedTo(c, s, Aim(s, id), v, h, target)
          && NoHaltNearer(c, s, Aim(s, id), d);
      last, reserved := s.vehicles[v].last, h;
      start := if Assigned(s, id) then s.vehicles[v].now else StandsAt(s.vehicles[v]);
      HaltIsPoint(c, v, Aim(s, id), h);
      if !Assigned(s, id) {
        DetourTarget(c, s, v, Aim(s, id), h, target, route, d);
      }
      ReachedIsFree(c, v, last, start, target, route, d);
  }

  lemma HaltIsPoint(c: Planner, v: int, aim: int, h: int)
    requires IsMap(c.net.m) && NearestHalt(c.net, c.occ, v, aim, h)
    ensures IsPoint(c.net.m, h) && StationFree(c.occ, h, v) && HaltPick(c, v, aim, h)
  {
    hide NoNearerHalt, FreeAnswer;
    var i, r, d :| 0 <= i < |c.net.m| && c.net.m[i].Id() == h && FirstHalt(c.net, c.occ, v, aim, i, r, d);
    SpiritByIdAt(c.net.m, i);
  }

  /** A dispatch, to the goal or to a halt point, is a planning step followed by a commit of the
      reservation system. */
  lemma DispatchIsPlanThenCommit(c: Planner, s: State, id: int, v: int, route: seq<int>, halt: Option<int>, occ': Occupancy)
    returns (states: seq<Traffic.State>, steps: seq<Traffic.Step>)
    requires IsMap(c.net.m) && Decided(c, s, id, Some(Start(id, v, route, halt)), occ') && v > 0
    ensures Traffic.IsRun(c.net, states, steps)
    ensures states[0] == Traffic.State(c.occ, None) && states[|steps|] == Traffic.State(occ', None)
  {
    hide PathAnswer, Decided, IsMap, IsPoint, Reserve, Owner;
    var last, start, target, d, reserved := DecidedPlan(c, s, id, v, route, halt, occ');
    var a, b := Traffic.State(c.occ, None), Traffic.State(c.occ, Some(Traffic.Plan(v, reserved, route)));
    var e := Traffic.State(occ', None);
    var plan := if halt.None? then Traffic.PlanRoute(v, last, start, target, route, d)
                else Traffic.PlanDetour(v, last, start, target, route, d, reserved);
    states, steps := [a, b, e], [plan, Traffic.Commit];
    assert Traffic.Next(c.net, a, steps[0], b);
    assert Traffic.Next(c.net, b, steps[1], e);
  }

  /** No decision of the dispatcher brings two vehicles head on, detours included. */
  lemma DecisionsKeepNoHeadOn(c: Planner, s: State, id: int, step: Option<Step>, occ': Occupancy)
    requires Loaded(c.net) && Decided(c, s, id, step, occ')
    requires Traffic.NoHeadOn(c.net, c.occ)
    ensures Traffic.NoHeadOn(c.net, occ')
  {
    if step.Some? && step.value.Start? {
      hide Decided, PathAnswer, IsMap, Loaded, Traffic.NoHeadOn, Reserve;
      assert IsMap(c.net.m) by { LoadedIsMap(c.net); }
      var v, route := step.value.v, step.value.path;
      DecidedIsAbout(c, s, id, step.value, occ');
      var last, start, target, d, reserved := DecidedPlan(c, s, id, v, route, step.value.halt, occ');
      AnswerKeepsNoHeadOn(c, v, last, start, target, route, d, reserved);
    }
  }

  lemma DecidedIsAbout(c: Planner, s: State, id: int, step: Step, occ': Occupancy)
    requires step.Start? && Decided(c, s, id, Some(step), occ')
    ensures step.id == id && step == Start(id, step.v, step.path, step.halt)
  {
    hide RouteFor, NoRoute, DetourFor, Reserve;
  }

  /** Every decision keeps the group records right, detours included. */
  lemma DecisionsKeepGroups(c: Planner, s: State, id: int, step: Option<Step>, occ': Occupancy)
    requires IsMap(c.net.m) && Decided(c, s, id, step, occ') && forall v :: v in s.vehicles ==> v > 0
    requires Traffic.GroupsRight(c.net.m, c.occ)
    ensures Traffic.GroupsRight(c.net.m, occ')
  {
    if step.Some? && step.value.Start? {
      hide Decided, PathAnswer, IsMap, Reserve, Traffic.GroupsSound, Traffic.WellTyped, Traffic.PlanOpen, IsPoint;
      var v, route := step.value.v, step.value.path;
      DecidedIsAbout(c, s, id, step.value, occ');
      var last, start, target, d, reserved := DecidedPlan(c, s, id, v, route, step.value.halt, occ');
      Traffic.DetourIsOpen(c.net, c.occ, v, last, start, target, route, d, reserved);
      Traffic.MapIds(c.net.m);
      Traffic.ReserveKeepsGroups(c.net.m, c.occ, Traffic.Plan(v, reserved, route));
    }
  }

  /** No decision takes a station or a line from anybody, detours included. */
  lemma DecisionsTakeNothing(c: Planner, s: State, id: int, step: Option<Step>, occ': Occupancy)
    requires IsMap(c.net.m) && Decided(c, s, id, step, occ')
    ensures StillHeld(c.occ, occ')
  {
    if step.Some? && step.value.Start? {
      hide Decided, PathAnswer, IsMap, Reserve, IsPoint, StillHeld;
      var v, route := step.value.v, step.value.path;
      DecidedIsAbout(c, s, id, step.value, occ');
      var last, start, target, d, reserved := DecidedPlan(c, s, id, v, route, step.value.halt, occ');
      ReserveTakesNothing(c.net.m, c.occ, v, reserved, route);
    }
  }

  lemma DecisionsAreSafe(c: Planner, s: State, id: int, step: Option<Step>, occ': Occupancy)
    requires IsMap(c.net.m) && Decided(c, s, id, step, occ') && forall v :: v in s.vehicles ==> v > 0
    ensures Loaded(c.net) && Traffic.NoHeadOn(c.net, c.occ) ==> Traffic.NoHeadOn(c.net, occ')
    ensures Traffic.GroupsRight(c.net.m, c.occ) ==> Traffic.GroupsRight(c.net.m, occ')
    ensures StillHeld(c.occ, occ')
  {
    hide *;
    if Loaded(c.net) && Traffic.NoHeadOn(c.net, c.occ) {
      DecisionsKeepNoHeadOn(c, s, id, step, occ');
    }
    if Traffic.GroupsRight(c.net.m, c.occ) {
      DecisionsKeepGroups(c, s, id, step, occ');
    }
    DecisionsTakeNothing(c, s, id, step, occ');
  }

  lemma AnswerKeepsNoHeadOn(c: Planner, v: int, last: int, start: int, goal: int, route: seq<int>, d: int, reserved: int)
    requires Loaded(c.net) && Traffic.NoHeadOn(c.net, c.occ) && route != []
    requires PathAnswer(c.net, c.occ, v, last, start, goal, false, route, d)
    ensures Traffic.NoHeadOn(c.net, Reserve(c.net.m, c.occ, v, reserved, route))
  {
    hide PathAnswer, Traffic.NoHeadOn, Traffic.RouteUnopposed, Reserve;
    assert IsMap(c.net.m);
    Traffic.PlannedIsUnopposed(c.net, c.occ, v, last, start, goal, route, d);
    Traffic.ReserveKeepsNoHeadOn(c.net, c.occ, v, reserved, route);
  }

  // ---------------------------------------------------------------- where a decision sends a vehicle

  /** A task is sent to its node by a trip over lines that are open to the vehicle, from the station it stands
      at.  Between stations that is the one it heads for, when the task names no vehicle, or the one it came
      from.  Afterwards the vehicle owns the node's station and holds exactly the lines of the trip in addition
      to what it held, and nothing else has changed. */
  lemma SentOnTrip(c: Planner, s: State, id: int, step: Option<Step>, occ': Occupancy, goal: int)
    returns (v: int, u: Vehicle, at: int, from: int, lines: seq<MapPath>)
    requires Loaded(c.net) && Decided(c, s, id, step, occ') && ToNode(step)
    requires id in s.tasks && s.tasks[id].index < |s.tasks[id].nodes| && goal == s.tasks[id].nodes[s.tasks[id].index]
    ensures v == step.value.v && v in s.vehicles && u == s.vehicles[v]
    ensures at == if s.tasks[id].agv in s.vehicles || u.now != 0 then u.now else u.next
    ensures from == if at > 0 then at else u.last
    ensures OpenTrip(c.net.m, c.occ, v, from, goal, lines)
    ensures |lines| == |step.value.path| && forall i :: 0 <= i < |lines| ==> step.value.path[i] == lines[i].id
    ensures forall x :: Owner(occ', x) == if x == goal then v else Owner(c.occ, x)
    ensures forall l, w :: w in Holders(occ', l) <==> w in Holders(c.occ, l) || (w == v && l in step.value.path)
  {
    var d;
    v, u, at, d := Sent(c, s, id, step, occ', goal);
    from := if at > 0 then at else u.last;
    hide *;
    LeadsElsewhere(c.net, c.occ, v, u.last, at, goal, step.value.path, d, from);
    lines := PlannedTrip(c.net, c.occ, v, u.last, at, goal, false, step.value.path, d, from);
    ReservedBy(c.net.m, c.occ, v, goal, step.value.path);
  }

  lemma Sent(c: Planner, s: State, id: int, step: Option<Step>, occ': Occupancy, goal: int)
    returns (v: int, u: Vehicle, at: int, d: int)
    requires Decided(c, s, id, step, occ') && ToNode(step)
    requires id in s.tasks && s.tasks[id].index < |s.tasks[id].nodes| && goal == s.tasks[id].nodes[s.tasks[id].index]
    ensures v == step.value.v && v in s.vehicles && u == s.vehicles[v]
    ensures at == if s.tasks[id].agv in s.vehicles || u.now != 0 then u.now else u.next
    ensures step.value.path != [] && PathAnswer(c.net, c.occ, v, u.last, at, goal, false, step.value.path, d)
    ensures occ' == Reserve(c.net.m, c.occ, v, goal, step.value.path)
  {
    hide PathAnswer, FirstNearest, NoIdleNearer, Reserve;
    v := step.value.v;
    d :| RouteFor(c, s, id, v, step.value.path, d);
    u := s.vehicles[v];
    at := if s.tasks[id].agv in s.vehicles || u.now != 0 then u.now else u.next;
  }

  lemma ReservedBy(m: seq<Spirit>, occ: Occupancy, v: int, goal: int, route: seq<int>)
    ensures var occ' := Reserve(m, occ, v, goal, route);
      && (forall x :: Owner(occ', x) == if x == goal then v else Owner(occ, x))
      && forall l, w :: w in Holders(occ', l) <==> w in Holders(occ, l) || (w == v && l in route)
  {
    AddLinesHolds(m, AddStation(m, occ, goal, v), route, v);
    hide AddLines, Record, CommonGroups;
  }

  // ---------------------------------------------------------------- erasing and reversing

  lemma EraseIsRemove(s: seq<int>, k: nat, x: int)
    requires NoDup(s) && k < |s| && s[k] == x
    ensures s[..k] + s[k + 1..] == RemoveAll(s, x)
  {
    RemoveAllSkips(s, k, x);
    RemoveAllKeeps(s[..k] + s[k + 1..], x);
  }

  /** Erasing in the task's own queue is taking it out of every queue. */
  lemma EraseIsUnqueue(s: State, p: int, k: nat)
    requires QueuesTidy(s) && p in s.queues && k < |s.queues[p]|
    ensures var id := s.queues[p][k];
      s.queues[p := s.queues[p][..k] + s.queues[p][k + 1..]] == Unqueue(s.queues, id)
  {
    hide NoDup;
    var q := s.queues[p];
    var id := q[k];
    EraseIsRemove(q, k, id);
    var r := Unqueue(s.queues, id);
    assert r[p] == q[..k] + q[k + 1..];
    assert id in QueueOf(s.queues, p);
    forall o | o in s.queues && o != p ensures RemoveAll(s.queues[o], id) == s.queues[o] {
      InOneQueue(s, p, o, id);
      RemoveAllKeeps(s.queues[o], id);
    }
    assert s.queues[p := q[..k] + q[k + 1..]] == r;
  }

  lemma InOneQueue(s: State, p: int, o: int, id: int)
    requires QueuesTidy(s) && id in QueueOf(s.queues, p) && o in s.queues && o != p
    ensures id !in s.queues[o]
  {
    assert QueueOf(s.queues, o) == s.queues[o];
    assert id in s.tasks && s.tasks[id].priority == p;
  }

  lemma {:induction false} ReversedTwice<T>(s: seq<T>)
    ensures Reversed(Reversed(s)) == s
  {
    if s != [] {
      var rest, x := s[..|s| - 1], s[|s| - 1];
      ReversedTwice(rest);
      ReversedFront(x, Reversed(rest));
      assert s == rest + [x];
    }
  }

  lemma {:induction false} ReversedFront<T>(x: T, s: seq<T>)
    ensures Reversed([x] + s) == Reversed(s) + [x]
  {
    if s == [] {
      assert [x] + s == [] + [x];
      assert ([] + [x])[..0] == [];
    } else {
      var rest, y := s[..|s| - 1], s[|s| - 1];
      ReversedFront(x, rest);
      assert ([x] + s)[..|[x] + s| - 1] == [x] + rest;
    }
  }

  /** `std::reverse`. */
  method ReverseNodes(s: seq<int>) returns (r: seq<int>)
    ensures r == Reversed(s)
  {
    r := [];
    ReversedEmpty<int>();
    for i := 0 to |s|
      invariant r == Reversed(s[..i])
    {
      assert s[..i + 1] == s[..i] + [s[i]];
      ReversedPush(s[..i], s[i]);
      r := [s[i]] + r;
    }
    assert s[..|s|] == s;
  }

  /** `push_frontNode`: reverse, append, reverse. */
  method PushFrontNode(nodes: seq<int>, node: int) returns (r: seq<int>)
    ensures r == [node] + nodes
  {
    r := ReverseNodes(nodes);
    ReversedPush(r, node);
    ReversedTwice(nodes);
    r := ReverseNodes(r + [node]);
  }

  // ---------------------------------------------------------------- the manager

  class TaskManager {
    const mm: MapManager
    const fleet: seq<int>
    const detourAny: bool
    const detourOwn: bool
    var tasks: map<int, Task>
    var vehicles: map<int, Vehicle>
    var toDistribute: map<int, seq<int>>
    var doing: seq<int>
    var done: seq<int>
    var taskId: int
    ghost var gone: seq<int>
    ghost var running: set<int>
    ghost var log: map<int, seq<int>>

    ghost function S(): State
      reads this
    {
      State(tasks, vehicles, toDistribute, doing, done, gone, running, log)
    }

    ghost function C(): Planner
      reads this, mm, mm.onemap
    {
      Planner(mm.Net(), mm.Occ(), mm.mapModifying, fleet, detourAny, detourOwn)
    }

    /** The fleet lists the vehicles, ids are positive, and new task ids are fresh. */
    ghost predicate ValidIds()
      reads this
    {
      && (forall v :: v in vehicles <==> v in fleet)
      && (forall v :: v in vehicles ==> v > 0)
      && (forall id :: id in tasks ==> 0 < id <= taskId) && taskId >= 0
    }

    ghost predicate Valid()
      reads this
    {
      ValidIds() && Placed(S())
    }

    constructor (m: MapManager, agvs: seq<int>, start: map<int, Vehicle>, any: bool, own: bool)
      requires forall v :: v in start <==> v in agvs
      requires forall v :: v in start ==> v > 0 && start[v].task == 0
      ensures Valid() && Fresh(S()) && vehicles == start
      ensures mm == m && fleet == agvs && detourAny == any && detourOwn == own
    {
      mm, fleet, detourAny, detourOwn := m, agvs, any, own;
      tasks, vehicles, toDistribute, doing, done, taskId := map[], start, map[], [], [], 0;
      gone, running, log := [], {}, map[];
      new;
      assert Fresh(S());
      FreshInv(S());
    }

    /** The second half of `addTask`: into the queue of its priority. */
    method Requeue(id: int)
      requires id in tasks
      modifies this`toDistribute
      ensures S() == Enqueue(old(S()), id)
    {
      var p := tasks[id].priority;
      if p in toDistribute {
        toDistribute := toDistribute[p := toDistribute[p] + [id]];
      } else {
        assert [] + [id] == [id];
        toDistribute := toDistribute[p := [id]];
      }
    }

    /** `addTask` for a new task: it gets the next id. */
    method AddTask(t: Task) returns (id: int)
      requires Valid() && t.index == 0 && !t.cancelled && !t.detoured && t.loops == t.runTimes
      modifies this`toDistribute, this`tasks, this`taskId
      ensures Valid() && id == taskId == old(taskId) + 1
      ensures Enabled(old(S()), Submit(id, t)) && S() == Apply(old(S()), Submit(id, t))
    {
      hide Placed;
      ghost var s := S();
      taskId := taskId + 1;
      id := taskId;
      tasks := tasks[id := t];
      Requeue(id);
      PlacedKept(s, Submit(id, t));
    }

    /** `excuteTask`, up to the start of the thread. */
    method ExecuteTask(id: int)
      modifies this`doing, this`running, this`log
      ensures S() == Execute(old(S()), id)
    {
      doing := doing + [id];
      running, log := running + {id}, log[id := LogOf(S(), id)];
    }

    method FreeNamedVehicle(id: int)
      requires id in tasks
      modifies this`vehicles
      ensures vehicles == FreeVehicle(old(vehicles), tasks[id].agv)
    {
      var v := tasks[id].agv;
      if v in vehicles {
        vehicles := vehicles[v := vehicles[v].(task := 0)];
        vehicles := vehicles[v := vehicles[v].(idle := true)];
      }
    }

    /** `finishTask`. */
    method MoveToDone(id: int)
      requires id in tasks
      modifies this`vehicles, this`done
      ensures S() == FinishTask(old(S()), id)
    {
      FreeNamedVehicle(id);
      done := done + [id];
    }

    /** `doingTask.erase(std::find(...))`. */
    method EraseDoing(id: int)
      requires NoDup(doing) && id in doing
      modifies this`doing
      ensures doing == RemoveAll(old(doing), id)
    {
      var k := 0;
      while doing[k] != id
        invariant 0 <= k < |doing| && doing == old(doing)
        invariant exists j :: k <= j < |doing| && doing[j] == id
        decreases |doing| - k
      {
        k := k + 1;
      }
      EraseIsRemove(doing, k, id);
      doing := doing[..k] + doing[k + 1..];
    }

    /** The end of a task's thread, after its node was driven to and its things were done. */
    method CompleteNode(id: int)
      requires Valid() && id in running && id in tasks
      modifies this`tasks, this`doing, this`toDistribute, this`running, this`log
      ensures Valid() && S() == Apply(old(S()), Complete(id))
    {
      hide Placed, RemoveAll, Enqueue, Tasks.CompleteNode, Enabled, Apply, LogOf;
      ghost var s := S();
      CompleteApplies(s, id);
      assert HasNode(s, id) && NoDup(doing) && (!tasks[id].cancelled ==> id in doing) by { RunningFacts(s, id); }
      log := log[id := LogOf(s, id) + [tasks[id].nodes[tasks[id].index]]];
      running := running - {id};
      tasks := tasks[id := tasks[id].(path := [], index := tasks[id].index + 1)];
      CompleteIs(s, id, S());
      if !tasks[id].cancelled {
        EraseDoing(id);
        Requeue(id);
      }
      PlacedKept(s, Complete(id));
    }

    /** A virtual vehicle that is asked to cancel marks the task it serves. */
    method CancelOnVehicle(v: int)
      requires v in vehicles
      modifies this`tasks
      ensures tasks == Mark(old(tasks), vehicles[v].task)
    {
      var t := vehicles[v].task;
      if t in tasks {
        tasks := tasks[t := tasks[t].(cancelled := true)];
      }
    }

    /** The inner loop of the search in the queues: every entry with this id is erased. */
    method EraseQueued(p: int, id: int) returns (found: bool)
      requires p in toDistribute
      modifies this`toDistribute
      ensures toDistribute == old(toDistribute)[p := RemoveAll(old(toDistribute)[p], id)]
      ensures found <==> id in old(toDistribute)[p]
    {
      var pos := 0;
      found := false;
      while pos < |toDistribute[p]|
        invariant p in toDistribute && 0 <= pos <= |toDistribute[p]|
        invariant toDistribute == old(toDistribute)[p := toDistribute[p]]
        invariant RemoveAll(toDistribute[p], id) == RemoveAll(old(toDistribute)[p], id)
        invariant id !in toDistribute[p][..pos]
        invariant found ==> id in old(toDistribute)[p]
        invariant !found ==> toDistribute == old(toDistribute)
        decreases |toDistribute[p]| - pos
      {
        var q := toDistribute[p];
        if q[pos] == id {
          RemoveAllSkips(q, pos, id);
          toDistribute := toDistribute[p := q[..pos] + q[pos + 1..]];
          found := true;
        } else {
          pos := pos + 1;
        }
      }
      assert toDistribute[p][..pos] == toDistribute[p];
      RemoveAllKeeps(toDistribute[p], id);
    }

    /** The search in the queues, and in the list of executing tasks when the queues do not have it. */
    method TakeOut(id: int) returns (found: bool)
      requires Valid() && id in tasks
      modifies this`toDistribute, this`doing
      ensures found <==> Live(old(S()), id)
      ensures found ==> toDistribute == Unqueue(old(toDistribute), id)
      ensures found ==> doing == if Queued(old(S()), id) then old(doing) else RemoveAll(old(doing), id)
      ensures !found ==> S() == old(S())
    {
      hide NoDup, Placed, RemoveAll, Unqueue, Queued, Live;
      ghost var s := S();
      ghost var all := toDistribute;
      PlacedLists(s, id);
      var left := toDistribute.Keys;
      found := false;
      while |left| > 0
        invariant left <= all.Keys == toDistribute.Keys
        invariant forall p :: p in all ==> toDistribute[p] == if p in left then all[p] else RemoveAll(all[p], id)
        invariant found <==> exists p :: p in all && p !in left && id in all[p]
        invariant doing == s.doing
        decreases |left|
      {
        LeastExists(left);
        var p :| IsLeast(left, p);
        var here := EraseQueued(p, id);
        left := left - {p};
        found := found || here;
      }
      assert toDistribute == Unqueue(all, id) by { UnqueueByParts(all, toDistribute, id); }
      FoundIsQueued(s, id);
      if !found {
        NothingErased(all, toDistribute, id);
        if id in doing {
          EraseDoing(id);
          found := true;
        }
      }
    }

    /** The marks of a cancelled task, and its vehicle set free. */
    method MarkCancelled(id: int)
      requires id in tasks
      modifies this`tasks, this`vehicles
      ensures tasks == CancelMarked(old(tasks), old(vehicles), id)
      ensures vehicles == FreeVehicle(old(vehicles), old(tasks)[id].agv)
    {
      hide Mark, FreeVehicle;
      MarkIs(tasks, id);
      MarkKeeps(tasks, id);
      tasks := tasks[id := tasks[id].(cancelled := true)];
      var v := tasks[id].agv;
      NotFreed(vehicles, v);
      if v in vehicles {
        MarkKeeps(tasks, vehicles[v].task);
        CancelOnVehicle(v);
        FreeNamedVehicle(id);
      }
    }

    /** `cancelTask`: the task leaves its list, and the vehicle it names is set free. */
    method CancelTask(id: int)
      requires Valid()
      modifies this`toDistribute, this`doing, this`tasks, this`vehicles, this`gone
      ensures Valid() && S() == Apply(old(S()), Cancel(id))
    {
      hide Placed, Unqueue, RemoveAll, Live, Queued, Apply, CancelMarked, FreeVehicle, CancelLive;
      ghost var s := S();
      CancelApplies(s, id);
      if id !in tasks {
        return;
      }
      var found := TakeOut(id);
      if found {
        CancelIs(s, id);
        MarkCancelled(id);
        gone := gone + [id];
        assert S() == CancelLive(s, id);
      }
      PlacedKept(s, Cancel(id));
      CancelKeys(s, id);
    }

    // ------------------------------------------------------------ choosing a vehicle

    /** One idle vehicle's best path to a goal. */
    method PathOfIdle(v: int, goal: int, ghost c: Planner, ghost s: State) returns (route: seq<int>, d: int)
      requires IsMap(mm.onemap.elements) && v in vehicles && vehicles[v].idle && c == C() && s == S()
      ensures forall r, d' :: IdleReaches(c, s, v, goal, r, d') ==> d' == d
      ensures route != [] ==> IdleReaches(c, s, v, goal, route, d) && d < INFINITY
      ensures route == [] ==> forall r, d' :: !IdleReaches(c, s, v, goal, r, d')
    {
      hide PathAnswer, IsMap;
      var u := vehicles[v];
      if u.now != 0 {
        route, d := mm.GetBestPath(v, u.last, u.now, goal, false);
      } else {
        route, d := mm.GetBestPath(v, u.last, u.next, goal, false);
      }
      assert BestAnswer(c, v, u.last, StandsAt(u), goal, route, d);
      hide BestAnswer;
      BestUnique(c, v, u.last, StandsAt(u), goal, route, d, route, d);
      forall r, d' | IdleReaches(c, s, v, goal, r, d') ensures d' == d && route != [] {
        BestUnique(c, v, u.last, StandsAt(u), goal, route, d, r, d');
      }
    }

    /** The search for the idle vehicle nearest to the goal; the first one wins a tie. */
    method NearestVehicle(goal: int, ghost c: Planner, ghost s: State)
      returns (best: int, route: seq<int>, distance: int)
      requires IsMap(mm.onemap.elements) && ValidIds() && c == C() && s == S()
      ensures best == 0 ==> distance == INFINITY
      ensures best != 0 ==> distance < INFINITY && IdleReaches(c, s, best, goal, route, distance)
      ensures best != 0 ==> FirstNearest(c, s, fleet, goal, best, distance)
      ensures NoIdleNearer(c, s, goal, distance)
    {
      hide IdleReaches, IsMap;
      best, route, distance := 0, [], INFINITY;
      ghost var at := 0;
      for i := 0 to |fleet|
        invariant distance <= INFINITY && (best == 0 <==> distance == INFINITY)
        invariant best != 0 ==> IdleReaches(c, s, best, goal, route, distance)
        invariant best != 0 ==> 0 <= at < i && fleet[at] == best && NoneBefore(c, s, fleet, goal, at, distance)
        invariant NoneNearer(c, s, fleet, goal, i, distance)
      {
        hide NoneBefore, NoneNearer;
        var v := fleet[i];
        FleetPositive(v);
        if vehicles[v].idle {
          var tempRoute, tempDis := PathOfIdle(v, goal, c, s);
          OneMoreVehicle(c, s, fleet, goal, i, distance, tempDis);
          if |tempRoute| > 0 && tempDis < distance {
            distance, best, route := tempDis, v, tempRoute;
            at := i;
          }
        } else {
          BusyReachesNothing(c, s, v, goal);
          OneMoreVehicle(c, s, fleet, goal, i, distance, distance);
        }
      }
      AllVehicles(c, s, fleet, goal, distance);
    }

    lemma FleetPositive(v: int)
      requires ValidIds() && v in fleet
      ensures v in vehicles && v > 0
    {}

    method HaltFor(v: int, goal: int, ghost c: Planner) returns (halt: int)
      requires IsMap(mm.onemap.elements) && c == C()
      ensures HaltPick(c, v, goal, halt)
    {
      hide NearestHalt, NoNearerHalt, IsMap;
      halt := mm.GetNearestHaltStation(v, goal);
    }

    /** The search for an idle vehicle that can wait at its nearest halt point.  A vehicle between
        stations is planned to the halt point found so far instead of its own. */
    method HaltingVehicle(goal: int, ghost c: Planner, ghost s: State)
      returns (best: int, halt: int, route: seq<int>, distance: int)
      requires IsMap(mm.onemap.elements) && ValidIds() && c == C() && s == S()
      ensures best == 0 ==> distance == INFINITY
      ensures best != 0 ==> distance < INFINITY && HaltChosen(c, s, best, goal, halt, route, distance)
      ensures NoHaltNearer(c, s, goal, distance)
    {
      hide IdleReaches, IsMap, HaltPick, HaltFound, HaltChosen, IdleAtStation, NoHaltNearer, HaltNotNearer;
      best, halt, route, distance := 0, -1, [], INFINITY;
      ghost var at := 0;
      NoHaltYet(c, s, goal);
      for i := 0 to |fleet|
        invariant HaltFound(c, s, goal, i, best, at, halt, route, distance)
      {
        var v := fleet[i];
        FleetPositive(v);
        if vehicles[v].idle {
          var haltTemp := HaltFor(v, goal, c);
          var target := if vehicles[v].now != 0 then haltTemp else halt;
          var tempRoute, tempDis := PathOfIdle(v, target, c, s);
          NextHalt(c, s, goal, i, best, at, halt, route, distance, haltTemp, target, tempRoute, tempDis);
          if |tempRoute| > 0 && tempDis < distance {
            distance, best, route, halt := tempDis, v, tempRoute, haltTemp;
            at := i;
          }
        } else {
          SkipHalt(c, s, goal, i, best, at, halt, route, distance);
        }
      }
      AllHalts(c, s, goal, best, at, halt, route, distance);
    }

    // ------------------------------------------------------------ distributing

    /** What every successful branch does: reserve, put the detour in front, hand over, execute. */
    method GiveTo(id: int, v: int, goal: int, route: seq<int>, halt: Option<int>)
      requires id in tasks && v in vehicles
      modifies this`tasks, this`vehicles, this`doing, this`running, this`log
      modifies mm`stationOccu, mm`lineOccu, mm`groupOccu
      ensures S() == StartOn(old(S()), id, v, route, halt)
      ensures mm.Occ() == Reserve(mm.onemap.elements, old(mm.Occ()), v, goal, route)
    {
      hide Reserve, Execute;
      mm.ReserveRoute(v, goal, route);
      var t := tasks[id];
      if halt.Some? {
        var nodes := PushFrontNode(t.nodes, halt.value);
        t := t.(nodes := nodes, detoured := true);
      }
      t := t.(path := route, agv := v);
      tasks := tasks[id := t];
      vehicles := vehicles[v := vehicles[v].(task := id, idle := false)];
      ExecuteTask(id);
    }

    /** The task is at the end of its node list: the next round, or done. */
    method DistributeEnded(id: int) returns (d: bool, ghost step: Step)
      requires Queued(S(), id) && !HasNode(S(), id)
      modifies this`tasks, this`vehicles, this`done
      ensures step == (if old(tasks)[id].runTimes > 1 then Wrap(id) else Step.Finish(id)) && Enabled(old(S()), step)
      ensures d <==> !step.Wrap?
      ensures S() == Handed(old(S()), step)
    {
      hide Queued, HasNode;
      QueuedKnown(S(), id);
      var runTimes := tasks[id].runTimes - 1;
      if runTimes <= 0 {
        step := Step.Finish(id);
        HandedFinish(S(), id);
        MoveToDone(id);
        d := true;
      } else {
        step := Wrap(id);
        HandedWrap(S(), id);
        tasks := tasks[id := tasks[id].(index := 0, runTimes := runTimes)];
        d := false;
      }
    }

    /** No vehicle yet: the nearest idle one, else one that waits at a halt point. */
    method DistributeAny(id: int, ghost c: Planner, ghost s: State) returns (d: bool, ghost step: Option<Step>)
      requires ValidIds() && IsMap(mm.onemap.elements) && Queued(S(), id) && HasNode(S(), id) && !Assigned(S(), id)
      requires c == C() && s == S()
      modifies this`tasks, this`vehicles, this`doing, this`running, this`log
      modifies mm`stationOccu, mm`lineOccu, mm`groupOccu
      ensures Decided(c, s, id, step, mm.Occ()) && (d <==> step.Some?)
      ensures step.None? ==> S() == s
      ensures step.Some? ==> step.value.Start? && Enabled(s, step.value) && S() == Handed(s, step.value)
    {
      hide IsMap, IdleReaches, NoIdleNearer, HaltChosen, Decided, Enabled, Handed, Reserve, StartOn, Queued;
      hide FirstNearest, NoHaltNearer;
      var aim := tasks[id].nodes[tasks[id].index];
      assert aim == Aim(s, id);
      var best, route, distance := NearestVehicle(aim, c, s);
      if best != 0 && distance != INFINITY {
        NearestIsDecision(c, s, id, best, route, distance);
        GiveTo(id, best, aim, route, None);
        return true, Some(Start(id, best, route, None));
      }
      NobodyReaches(c, s, id);
      var halt;
      best, halt, route, distance := HaltingVehicle(aim, c, s);
      if best != 0 && distance != INFINITY && halt != -1 {
        if detourAny {
          DetourIsDecision(c, s, id, best, route, halt, distance);
          GiveTo(id, best, halt, route, Some(halt));
          return true, Some(Start(id, best, route, Some(halt)));
        }
      }
      WaitIsDecision(c, s, id, best, route, halt, distance);
      return false, None;
    }

    /** The task names a vehicle: its route to the goal, else to a halt point, unless it is busy or
        already stands at a halt point. */
    method DistributeOwn(id: int, ghost c: Planner, ghost s: State) returns (d: bool, ghost step: Option<Step>)
      requires ValidIds() && IsMap(mm.onemap.elements) && Queued(S(), id) && HasNode(S(), id) && Assigned(S(), id)
      requires !Resumes(S(), id)
      requires c == C() && s == S()
      modifies this`tasks, this`vehicles, this`doing, this`running, this`log
      modifies mm`stationOccu, mm`lineOccu, mm`groupOccu
      ensures Decided(c, s, id, step, mm.Occ()) && (d <==> step.Some?)
      ensures step.None? ==> S() == s
      ensures step.Some? ==> step.value.Start? && Enabled(s, step.value) && S() == Handed(s, step.value)
    {
      hide IsMap, Decided, Enabled, Handed, Reserve, StartOn, Queued, OwnReaches, HaltPick;
      var v := tasks[id].agv;
      var u := vehicles[v];
      if u.task != id {
        if !u.idle {
          BusyIsDecision(c, s, id);
          return false, None;
        }
      }
      var aim := tasks[id].nodes[tasks[id].index];
      assert aim == Aim(s, id);
      var route, distance := PathOfOwn(id, aim, c, s);
      if distance != INFINITY && |route| > 0 {
        OwnIsDecision(c, s, id, route, distance);
        GiveTo(id, v, aim, route, None);
        return true, Some(Start(id, v, route, None));
      }
      d, step := DetourOwn(id, v, aim, c, s);
    }

    /** The vehicle has no route to the goal: it is sent to wait, unless it already stands at a halt point. */
    method DetourOwn(id: int, v: int, aim: int, ghost c: Planner, ghost s: State) returns (d: bool, ghost step: Option<Step>)
      requires ValidIds() && IsMap(mm.onemap.elements) && Queued(S(), id) && HasNode(S(), id) && Assigned(S(), id)
      requires Seeks(S(), id) && NoRoute(c, s, id) && v == tasks[id].agv && aim == Aim(s, id)
      requires c == C() && s == S()
      modifies this`tasks, this`vehicles, this`doing, this`running, this`log
      modifies mm`stationOccu, mm`lineOccu, mm`groupOccu
      ensures Decided(c, s, id, step, mm.Occ()) && (d <==> step.Some?)
      ensures step.None? ==> S() == s
      ensures step.Some? ==> step.value.Start? && Enabled(s, step.value) && S() == Handed(s, step.value)
    {
      hide IsMap, Decided, Enabled, Handed, Reserve, StartOn, Queued, OwnReaches, HaltPick;
      var here := PointOf(mm.onemap.elements, vehicles[v].now);
      if here.Some? && here.value.pointType.Halt? {
        OwnWaits(c, s, id, -1);
        return false, None;
      }
      var halt := HaltFor(v, aim, c);
      if halt == -1 {
        OwnToNowhere(c, s, id);
        OwnWaits(c, s, id, halt);
        return false, None;
      }
      var route, distance := PathOfOwn(id, halt, c, s);
      if distance != INFINITY && |route| > 0 {
        if detourOwn {
          OwnDetourIsDecision(c, s, id, route, halt, distance);
          GiveTo(id, v, halt, route, Some(halt));
          return true, Some(Start(id, v, route, Some(halt)));
        }
      }
      OwnWaits(c, s, id, halt);
      return false, None;
    }

    /** The best path of the vehicle the task names. */
    method PathOfOwn(id: int, goal: int, ghost c: Planner, ghost s: State) returns (route: seq<int>, d: int)
      requires IsMap(mm.onemap.elements) && Assigned(S(), id) && c == C() && s == S()
      ensures d != INFINITY && |route| > 0 ==> OwnReaches(c, s, id, goal, route, d)
      ensures !(d != INFINITY && |route| > 0) ==> forall r, d' :: !OwnReaches(c, s, id, goal, r, d')
    {
      hide PathAnswer, IsMap;
      var v := tasks[id].agv;
      var u := vehicles[v];
      route, d := mm.GetBestPath(v, u.last, u.now, goal, false);
      assert BestAnswer(c, v, u.last, u.now, goal, route, d);
      hide BestAnswer;
      BestUnique(c, v, u.last, u.now, goal, route, d, route, d);
      forall r, d' | OwnReaches(c, s, id, goal, r, d') ensures d != INFINITY && |route| > 0 {
        BestUnique(c, v, u.last, u.now, goal, route, d, r, d');
      }
    }

    /** `distributeTask`. */
    method DistributeTask(id: int) returns (d: bool, ghost step: Option<Step>)
      requires ValidIds() && IsMap(mm.onemap.elements) && Queued(S(), id)
      modifies this`tasks, this`vehicles, this`doing, this`done, this`running, this`log
      modifies mm`stationOccu, mm`lineOccu, mm`groupOccu
      ensures Decided(old(C()), old(S()), id, step, mm.Occ())
      ensures d <==> step.Some? && !step.value.Wrap?
      ensures step.None? ==> S() == old(S())
      ensures step.Some? ==> Enabled(old(S()), step.value) && S() == Handed(old(S()), step.value)
      ensures id in old(tasks) && var c, t := old(C()), old(tasks)[id];
        && (step == Some(Step.Finish(id)) <==> t.index >= |t.nodes| && t.runTimes <= 1)
        && (step == Some(Wrap(id)) <==> t.index >= |t.nodes| && t.runTimes > 1)
        && (t.index < |t.nodes| && t.agv in old(vehicles) ==>
             var u, goal := old(vehicles)[t.agv], t.nodes[t.index];
             && (u.task != id && !u.idle ==> step == None && mm.Occ() == old(mm.Occ()))
             && (step == Some(Resume(id)) <==> u.task == id && goal == 0)
             && ((u.task == id && goal != 0) || (u.task != id && u.idle) ==>
                  forall route, dist ::
                    route != [] && BestAnswer(c, t.agv, u.last, u.now, goal, route, dist) ==> ToNode(step)))
    {
      hide IsMap, Decided, Queued, Handed, Enabled;
      ghost var c, s := C(), S();
      QueuedKnown(s, id);
      var t := tasks[id];
      d, step := DistributeQueued(id, c, s);
      EndedDecision(c, s, id, step, mm.Occ());
      if t.index < |t.nodes| && t.agv in s.vehicles {
        OwnDecision(c, s, id, step, mm.Occ(), t.agv, s.vehicles[t.agv], t.nodes[t.index]);
      }
    }

    /** The branches of `distributeTask`. */
    method DistributeQueued(id: int, ghost c: Planner, ghost s: State) returns (d: bool, ghost step: Option<Step>)
      requires ValidIds() && IsMap(mm.onemap.elements) && Queued(S(), id)
      requires c == C() && s == S()
      modifies this`tasks, this`vehicles, this`doing, this`done, this`running, this`log
      modifies mm`stationOccu, mm`lineOccu, mm`groupOccu
      ensures Decided(c, s, id, step, mm.Occ())
      ensures d <==> step.Some? && !step.value.Wrap?
      ensures step.None? ==> S() == s
      ensures step.Some? ==> Enabled(s, step.value) && S() == Handed(s, step.value)
    {
      hide IsMap, Decided, Queued, Handed, Enabled;
      QueuedKnown(s, id);
      var t := tasks[id];
      if t.index >= |t.nodes| {
        ghost var ended;
        d, ended := DistributeEnded(id);
        EndedIsDecision(c, s, id, ended);
        return d, Some(ended);
      }
      if t.agv in vehicles && t.nodes[t.index] == 0 && vehicles[t.agv].task == id {
        ResumeIsDecision(c, s, id);
        ExecuteTask(id);
        return true, Some(Resume(id));
      }
      if t.agv !in vehicles {
        d, step := DistributeAny(id, c, s);
      } else {
        d, step := DistributeOwn(id, c, s);
      }
    }

    /** One round of the loop over a queue: the task at `pos` is offered, and erased when it was taken. */
    method ServeAt(p: int, pos: nat) returns (d: bool, ghost step: Option<Step>)
      requires Valid() && IsMap(mm.onemap.elements) && p in toDistribute && pos < |toDistribute[p]|
      modifies this`toDistribute, this`tasks, this`vehicles, this`doing, this`done, this`running, this`log
      modifies mm`stationOccu, mm`lineOccu, mm`groupOccu
      ensures Valid() && Decides(old(S()), old(toDistribute)[p][pos], step, S())
      ensures Decided(old(C()), old(S()), old(toDistribute)[p][pos], step, mm.Occ())
      ensures Loaded(mm.Net()) && Traffic.NoHeadOn(mm.Net(), old(mm.Occ())) ==> Traffic.NoHeadOn(mm.Net(), mm.Occ())
      ensures Traffic.GroupsRight(mm.onemap.elements, old(mm.Occ())) ==> Traffic.GroupsRight(mm.onemap.elements, mm.Occ())
      ensures StillHeld(old(mm.Occ()), mm.Occ())
      ensures var q := old(toDistribute)[p];
        toDistribute == if d then old(toDistribute)[p := q[..pos] + q[pos + 1..]] else old(toDistribute)
    {
      hide IsMap, Decided, Queued, Enabled, Apply, Unqueue, NoDup, Kept, ListsTidy, Traffic.NoHeadOn, Loaded;
      hide Traffic.GroupsRight, StillHeld;
      ghost var c, s := C(), S();
      var id := toDistribute[p][pos];
      InQueueIsQueued(s, p, id);
      d, step := DistributeTask(id);
      DecisionsAreSafe(c, s, id, step, mm.Occ());
      if step.Some? {
        DecidedDistributes(c, s, id, step.value, mm.Occ());
        HandedThenErased(s, p, pos, step.value);
        PlacedKept(s, step.value);
        StepKeys(s, step.value);
      }
      if d {
        EraseIsUnqueue(s, p, pos);
        toDistribute := toDistribute[p := toDistribute[p][..pos] + toDistribute[p][pos + 1..]];
      }
    }

    /** The loop over one queue. */
    method ServeQueue(p: int, ghost states0: seq<State>, ghost offered0: seq<int>, ghost decisions0: seq<Option<Step>>)
      returns (ghost states: seq<State>, ghost offered: seq<int>, ghost decisions: seq<Option<Step>>)
      requires Valid() && IsMap(mm.onemap.elements) && p in toDistribute
      requires SweepOf(states0, offered0, decisions0) && |states0| > 0 && states0[|states0| - 1] == S()
      modifies this`toDistribute, this`tasks, this`vehicles, this`doing, this`done, this`running, this`log
      modifies mm`stationOccu, mm`lineOccu, mm`groupOccu
      ensures Valid() && SweepOf(states, offered, decisions) && states[|states| - 1] == S()
      ensures states0 <= states && offered == offered0 + old(toDistribute)[p]
      ensures toDistribute.Keys == old(toDistribute).Keys
      ensures forall r :: r in toDistribute && r != p ==> toDistribute[r] == old(toDistribute)[r]
      ensures Loaded(mm.Net()) && Traffic.NoHeadOn(mm.Net(), old(mm.Occ())) ==> Traffic.NoHeadOn(mm.Net(), mm.Occ())
      ensures Traffic.GroupsRight(mm.onemap.elements, old(mm.Occ())) ==> Traffic.GroupsRight(mm.onemap.elements, mm.Occ())
      ensures StillHeld(old(mm.Occ()), mm.Occ())
    {
      hide IsMap, Placed, Decides, Decided, Loaded, Traffic.NoHeadOn, Traffic.GroupsRight, StillHeld, SweepOf, ValidIds;
      states, offered, decisions := states0, offered0, decisions0;
      ghost var all, net, occ := toDistribute, mm.Net(), mm.Occ();
      ghost var q := all[p];
      ghost var k := 0;
      var pos := 0;
      assert offered0 + q[..0] == offered0;
      HeldBySelf(occ);
      while pos < |toDistribute[p]|
        invariant Valid() && mm.Net() == net
        invariant 0 <= k <= |q| && p in toDistribute && 0 <= pos <= |toDistribute[p]|
        invariant toDistribute == all[p := toDistribute[p]]
        invariant toDistribute[p][pos..] == q[k..] && offered == offered0 + q[..k]
        invariant SweepOf(states, offered, decisions) && |states| > 0
        invariant states[|states| - 1] == S() && states0 <= states
        invariant Loaded(net) && Traffic.NoHeadOn(net, occ) ==> Traffic.NoHeadOn(net, mm.Occ())
        invariant Traffic.GroupsRight(net.m, occ) ==> Traffic.GroupsRight(net.m, mm.Occ())
        invariant StillHeld(occ, mm.Occ())
        decreases |q| - k
      {
        Shift(toDistribute[p], q, pos, k, offered0);
        var d;
        ghost var step;
        ghost var before := mm.Occ();
        d, step := ServeAt(p, pos);
        HeldByBoth(occ, before, mm.Occ());
        SweepOnce(states, offered, decisions, q[k], step, S());
        states, offered, decisions := states + [S()], offered + [q[k]], decisions + [step];
        k := k + 1;
        if !d {
          pos := pos + 1;
        }
      }
      assert toDistribute[p][pos..] == [];
      assert q[..k] == q;
    }

    /** One sweep of the dispatcher: the queues in ascending order of their number, lowest priority
        first, each from front to back. */
    method Sweep() returns (ghost keys: seq<int>, ghost states: seq<State>, ghost offered: seq<int>,
                            ghost decisions: seq<Option<Step>>)
      requires Valid() && IsMap(mm.onemap.elements)
      modifies this`toDistribute, this`tasks, this`vehicles, this`doing, this`done, this`running, this`log
      modifies mm`stationOccu, mm`lineOccu, mm`groupOccu
      ensures Valid() && SweepOf(states, offered, decisions)
      ensures states[0] == old(S()) && states[|states| - 1] == S()
      ensures Ascending(keys) && (forall p :: p in keys <==> p in old(toDistribute))
      ensures offered == Flatten(keys, old(toDistribute))
      ensures Loaded(mm.Net()) && Traffic.NoHeadOn(mm.Net(), old(mm.Occ())) ==> Traffic.NoHeadOn(mm.Net(), mm.Occ())
      ensures Traffic.GroupsRight(mm.onemap.elements, old(mm.Occ())) ==> Traffic.GroupsRight(mm.onemap.elements, mm.Occ())
      ensures StillHeld(old(mm.Occ()), mm.Occ())
    {
      hide IsMap, Placed, Decides, Loaded, Traffic.NoHeadOn, Traffic.GroupsRight, StillHeld, SweepOf, ValidIds;
      hide Flatten, Ascending, IsLeast, KeysApart;
      ghost var all, net, occ := toDistribute, mm.Net(), mm.Occ();
      keys, states, offered, decisions := [], [S()], [], [];
      SweepStarts(S(), all);
      HeldBySelf(occ);
      var left := toDistribute.Keys;
      while |left| > 0
        invariant Valid() && mm.Net() == net && toDistribute.Keys == all.Keys && left <= all.Keys
        invariant forall p :: p in left ==> toDistribute[p] == all[p]
        invariant Ascending(keys) && KeysApart(all.Keys, left, keys)
        invariant offered == Flatten(keys, all)
        invariant SweepOf(states, offered, decisions) && |states| > 0
        invariant states[0] == old(S()) && states[|states| - 1] == S()
        invariant Loaded(net) && Traffic.NoHeadOn(net, occ) ==> Traffic.NoHeadOn(net, mm.Occ())
        invariant Traffic.GroupsRight(net.m, occ) ==> Traffic.GroupsRight(net.m, mm.Occ())
        invariant StillHeld(occ, mm.Occ())
        decreases |left|
      {
        LeastExists(left);
        var p :| IsLeast(left, p);
        KeysBefore(all.Keys, left, keys, p);
        ghost var before, occ0 := states, mm.Occ();
        states, offered, decisions := ServeQueue(p, states, offered, decisions);
        HeldByBoth(occ, occ0, mm.Occ());
        OneMoreKey(keys, all, p);
        KeysSplit(all.Keys, left, keys, p);
        keys := keys + [p];
        left := left - {p};
        assert states[0] == before[0];
      }
      KeysDone(all.Keys, left, keys);
    }
  }

  lemma Shift(cur: seq<int>, q: seq<int>, pos: nat, k: nat, front: seq<int>)
    requires pos < |cur| && k <= |q| && cur[pos..] == q[k..]
    ensures k < |q| && cur[pos] == q[k] && front + q[..k] + [q[k]] == front + q[..k + 1]
    ensures cur[pos + 1..] == q[k + 1..]
    ensures (cur[..pos] + cur[pos + 1..])[pos..] == q[k + 1..]
  {
    assert |cur[pos..]| == |q[k..]|;
    assert cur[pos] == cur[pos..][0] == q[k..][0] == q[k];
    assert cur[pos + 1..] == cur[pos..][1..] && q[k + 1..] == q[k..][1..];
    assert (cur[..pos] + cur[pos + 1..])[pos..] == cur[pos + 1..];
  }

  lemma SweepStarts(s: State, all: map<int, seq<int>>)
    ensures SweepOf([s], [], []) && Flatten([], all) == [] && Ascending([]) && KeysApart(all.Keys, all.Keys, [])
  {}

  /** The keys that were walked and those that are left: together all, and the walked ones smaller. */
  ghost predicate KeysApart(all: set<int>, left: set<int>, keys: seq<int>) {
    && (forall p :: p in all <==> p in left || p in keys)
    && forall p, q :: p in keys && q in left ==> p < q
  }

  lemma KeysSplit(all: set<int>, left: set<int>, keys: seq<int>, p: int)
    requires KeysApart(all, left, keys) && IsLeast(left, p)
    ensures KeysApart(all, left - {p}, keys + [p])
  {}

  lemma KeysDone(all: set<int>, left: set<int>, keys: seq<int>)
    requires KeysApart(all, left, keys) && left == {}
    ensures forall p :: p in keys <==> p in all
  {}

  lemma KeysBefore(all: set<int>, left: set<int>, keys: seq<int>, p: int)
    requires KeysApart(all, left, keys) && IsLeast(left, p)
    ensures p in left && p in all && forall k :: k in keys ==> k < p
  {}

  lemma OneMoreKey(keys: seq<int>, all: map<int, seq<int>>, p: int)
    requires Ascending(keys) && forall k :: k in keys ==> k < p
    ensures Ascending(keys + [p]) && Flatten(keys + [p], all) == Flatten(keys, all) + QueueOf(all, p)
  {
    assert (keys + [p])[..|keys|] == keys;
    assert forall i :: 0 <= i < |keys| ==> (keys + [p])[i] == keys[i] && keys[i] in keys;
  }

  lemma InQueueIsQueued(s: State, p: int, id: int)
    requires QueuesTidy(s) && p in s.queues && id in s.queues[p]
    ensures Queued(s, id) && s.tasks[id].priority == p
  {
    assert QueueOf(s.queues, p) == s.queues[p];
  }

  /** Handing over and then erasing in the queue is the step. */
  lemma HandedThenErased(s: State, p: int, k: nat, step: Step)
    requires QueuesTidy(s) && p in s.queues && k < |s.queues[p]|
    requires Distributes(step, s.queues[p][k]) && Enabled(s, step)
    ensures var q := s.queues[p];
      Apply(s, step) == if step.Wrap? then Handed(s, step) else
        Handed(s, step).(queues := s.queues[p := q[..k] + q[k + 1..]])
  {
    hide Unqueue, NoDup;
    EraseIsUnqueue(s, p, k);
    match step
    case Start(id, v, path, halt) =>
      assert Apply(s, step) == StartOn(s.(queues := Unqueue(s.queues, id)), id, v, path, halt);
    case Resume(id) =>
    case Finish(id) =>
    case Wrap(id) =>
  }

  lemma StepKeys(s: State, step: Step)
    requires Enabled(s, step) && (step.Start? || step.Resume? || step.Wrap? || step.Finish?)
    ensures Apply(s, step).tasks.Keys == s.tasks.Keys && Apply(s, step).vehicles.Keys == s.vehicles.Keys
  {
    hide Unqueue;
  }

  lemma OneMoreVehicle(c: Planner, s: State, fleet: seq<int>, goal: int, i: nat, d: int, temp: int)
    requires i < |fleet| && NoneNearer(c, s, fleet, goal, i, d)
    requires forall r, d' :: IdleReaches(c, s, fleet[i], goal, r, d') ==> temp <= d'
    ensures temp >= d ==> NoneNearer(c, s, fleet, goal, i + 1, d)
    ensures temp < d ==> NoneNearer(c, s, fleet, goal, i + 1, temp) && NoneBefore(c, s, fleet, goal, i, temp)
    ensures (forall r, d' :: !IdleReaches(c, s, fleet[i], goal, r, d')) ==> NoneNearer(c, s, fleet, goal, i + 1, d)
  {
    hide IdleReaches;
  }

  lemma AllVehicles(c: Planner, s: State, fleet: seq<int>, goal: int, d: int)
    requires NoneNearer(c, s, fleet, goal, |fleet|, d) && forall v :: v in s.vehicles <==> v in fleet
    ensures NoIdleNearer(c, s, goal, d)
  {
    hide IdleReaches;
    forall v, r, d' | IdleReaches(c, s, v, goal, r, d') ensures d <= d' {
      ReachingIsKnown(c, s, v, goal, r, d');
      var k :| 0 <= k < |fleet| && fleet[k] == v;
    }
  }

  /** What the search for a halting vehicle has found among the first vehicles of the fleet. */
  ghost predicate HaltFound(c: Planner, s: State, goal: int, i: nat, best: int, at: int, halt: int, route: seq<int>, d: int)
    requires i <= |c.fleet|
  {
    && d <= INFINITY && (best == 0 <==> d == INFINITY) && (best == 0 ==> halt == -1)
    && (best != 0 ==> HaltChosen(c, s, best, goal, halt, route, d))
    && (best != 0 ==> 0 <= at < i && IsIdle(s, c.fleet[at]) && HaltPick(c, c.fleet[at], goal, halt))
    && HaltsChecked(c, s, c.fleet, goal, i, d)
  }

  lemma NoHaltYet(c: Planner, s: State, goal: int)
    ensures HaltFound(c, s, goal, 0, 0, 0, -1, [], INFINITY)
  {}

  lemma NextHalt(c: Planner, s: State, goal: int, i: nat, best: int, at: int, halt: int, route: seq<int>, d: int,
                 own: int, target: int, temp: seq<int>, tempDis: int)
    requires i < |c.fleet| && HaltFound(c, s, goal, i, best, at, halt, route, d)
    requires var v := c.fleet[i]; v in s.vehicles && v != 0 && s.vehicles[v].idle && HaltPick(c, v, goal, own)
    requires target == if s.vehicles[c.fleet[i]].now != 0 then own else halt
    requires forall r, d' :: IdleReaches(c, s, c.fleet[i], target, r, d') ==> d' == tempDis
    requires temp != [] ==> IdleReaches(c, s, c.fleet[i], target, temp, tempDis) && tempDis < INFINITY
    requires temp == [] ==> forall r, d' :: !IdleReaches(c, s, c.fleet[i], target, r, d')
    ensures if temp != [] && tempDis < d then HaltFound(c, s, goal, i + 1, c.fleet[i], i, own, temp, tempDis)
            else HaltFound(c, s, goal, i + 1, best, at, halt, route, d)
  {
    hide IdleReaches, HaltPick, HaltChosen, HaltsChecked, PlannedTo;
    var v := c.fleet[i];
    AtStation(s, v);
    OneMoreHalt(c, s, c.fleet, goal, i, own, d, temp, tempDis);
    if temp != [] && tempDis < d {
      TargetIsPlanned(c, s, goal, i, own, best, at, halt, target, temp, tempDis);
      HaltIsChosen(c, s, v, goal, own, target, temp, tempDis);
    }
  }

  lemma SkipHalt(c: Planner, s: State, goal: int, i: nat, best: int, at: int, halt: int, route: seq<int>, d: int)
    requires i < |c.fleet| && HaltFound(c, s, goal, i, best, at, halt, route, d)
    requires c.fleet[i] in s.vehicles && !s.vehicles[c.fleet[i]].idle
    ensures HaltFound(c, s, goal, i + 1, best, at, halt, route, d)
  {
    hide IdleReaches, HaltPick, HaltChosen, HaltsChecked;
    AtStation(s, c.fleet[i]);
    OneMoreHalt(c, s, c.fleet, goal, i, -1, d, [], d);
  }

  lemma AtStation(s: State, v: int)
    requires v in s.vehicles
    ensures IdleAtStation(s, v) <==> s.vehicles[v].idle && s.vehicles[v].now != 0
  {}

  lemma HaltIsChosen(c: Planner, s: State, v: int, goal: int, h: int, target: int, route: seq<int>, d: int)
    requires HaltPick(c, v, goal, h) && IdleReaches(c, s, v, target, route, d) && PlannedTo(c, s, goal, v, h, target)
    ensures HaltChosen(c, s, v, goal, h, route, d)
  {
    hide HaltPick, IdleReaches, PlannedTo;
  }

  /** The target of a vehicle with a route is its own halt point or the one found so far. */
  lemma TargetIsPlanned(c: Planner, s: State, goal: int, i: nat, h: int, best: int, at: int, found: int, target: int,
                        route: seq<int>, d: int)
    requires i < |c.fleet| && IdleReaches(c, s, c.fleet[i], target, route, d)
    requires target == if s.vehicles[c.fleet[i]].now != 0 then h else found
    requires best == 0 ==> found == -1
    requires best != 0 ==> 0 <= at < i && IsIdle(s, c.fleet[at]) && HaltPick(c, c.fleet[at], goal, found)
    ensures PlannedTo(c, s, goal, c.fleet[i], h, target)
  {
    hide HaltPick, BestAnswer;
    var v := c.fleet[i];
    if target == -1 {
      NowhereReached(c, v, s.vehicles[v].last, StandsAt(s.vehicles[v]), route, d);
    }
    assert TargetOf(c, s, goal, i, h, target);
  }

  lemma OneMoreHalt(c: Planner, s: State, fleet: seq<int>, goal: int, i: nat, h: int, d: int, route: seq<int>, temp: int)
    requires i < |fleet| && HaltsChecked(c, s, fleet, goal, i, d)
    requires IdleAtStation(s, fleet[i]) ==> HaltPick(c, fleet[i], goal, h)
    requires IdleAtStation(s, fleet[i]) ==>
               forall r, d' :: IdleReaches(c, s, fleet[i], h, r, d') ==> d' == temp && route != []
    ensures HaltsChecked(c, s, fleet, goal, i + 1, if route != [] && temp < d then temp else d)
  {
    hide IdleReaches, HaltPick;
    var e := if route != [] && temp < d then temp else d;
    forall k | 0 <= k < i + 1 && IdleAtStation(s, fleet[k]) ensures HaltNotNearer(c, s, fleet[k], goal, e) {
      if k < i {
        NotNearerStays(c, s, fleet[k], goal, d, e);
      } else {
        assert forall r, d' :: IdleReaches(c, s, fleet[i], h, r, d') ==> e <= d';
      }
    }
  }

  lemma AllHalts(c: Planner, s: State, goal: int, best: int, at: int, halt: int, route: seq<int>, d: int)
    requires HaltFound(c, s, goal, |c.fleet|, best, at, halt, route, d) && forall v :: v in s.vehicles <==> v in c.fleet
    ensures NoHaltNearer(c, s, goal, d) && (best == 0 ==> d == INFINITY)
    ensures best != 0 ==> d < INFINITY && HaltChosen(c, s, best, goal, halt, route, d)
  {
    hide HaltNotNearer, HaltChosen, HaltPick;
    forall v | IdleAtStation(s, v) ensures HaltNotNearer(c, s, v, goal, d) {
      var k :| 0 <= k < |c.fleet| && c.fleet[k] == v;
    }
  }

  lemma NotNearerStays(c: Planner, s: State, v: int, goal: int, d: int, d': int)
    requires HaltNotNearer(c, s, v, goal, d) && d' <= d
    ensures HaltNotNearer(c, s, v, goal, d')
  {
    hide HaltPick, IdleReaches;
  }

  lemma BusyReachesNothing(c: Planner, s: State, v: int, goal: int)
    requires v in s.vehicles && !s.vehicles[v].idle
    ensures forall r, d :: !IdleReaches(c, s, v, goal, r, d)
  {}

  lemma ReachingIsKnown(c: Planner, s: State, v: int, goal: int, r: seq<int>, d: int)
    requires IdleReaches(c, s, v, goal, r, d)
    ensures v in s.vehicles
  {}

  function CancelMarked(tasks: map<int, Task>, vehicles: map<int, Vehicle>, id: int): map<int, Task>
    requires id in tasks
  {
    var v := tasks[id].agv;
    if v in vehicles then Mark(Mark(tasks, id), vehicles[v].task) else Mark(tasks, id)
  }

  lemma CancelIs(s: State, id: int)
    requires id in s.tasks
    ensures CancelLive(s, id) ==
            s.(queues := Unqueue(s.queues, id),
               doing := if Queued(s, id) then s.doing else RemoveAll(s.doing, id),
               tasks := CancelMarked(s.tasks, s.vehicles, id),
               vehicles := FreeVehicle(s.vehicles, s.tasks[id].agv),
               gone := s.gone + [id])
  {
    hide Unqueue, Queued, RemoveAll, Mark, FreeVehicle;
  }

  lemma CancelKeys(s: State, id: int)
    ensures Apply(s, Cancel(id)).tasks.Keys == s.tasks.Keys
    ensures Apply(s, Cancel(id)).vehicles.Keys == s.vehicles.Keys
  {
    hide Unqueue, Queued, RemoveAll, Live;
  }

  lemma MarkIs(tasks: map<int, Task>, id: int)
    requires id in tasks
    ensures Mark(tasks, id) == tasks[id := tasks[id].(cancelled := true)]
  {}

  lemma NotFreed(vehicles: map<int, Vehicle>, v: int)
    ensures v !in vehicles ==> FreeVehicle(vehicles, v) == vehicles
  {}

  predicate IsLeast(s: set<int>, p: int) {
    p in s && forall q :: q in s ==> p <= q
  }

  lemma {:induction false} LeastExists(s: set<int>)
    requires |s| > 0
    ensures exists p :: IsLeast(s, p)
    decreases |s|
  {
    assert (forall y: int :: y !in s) ==> s == {};
    var x :| x in s;
    var rest := s - {x};
    if |rest| == 0 {
      assert s == {x};
      assert IsLeast(s, x);
    } else {
      LeastExists(rest);
      var p :| IsLeast(rest, p);
      assert s == rest + {x};
      assert IsLeast(s, if p < x then p else x);
    }
  }

  lemma UnqueueByParts(all: map<int, seq<int>>, r: map<int, seq<int>>, id: int)
    requires r.Keys == all.Keys && forall p :: p in all ==> r[p] == RemoveAll(all[p], id)
    ensures r == Unqueue(all, id)
  {
    hide RemoveAll;
    var u := Unqueue(all, id);
    assert forall p :: p in r <==> p in u;
    assert forall p :: p in u ==> r[p] == u[p];
  }

  lemma NothingErased(all: map<int, seq<int>>, r: map<int, seq<int>>, id: int)
    requires r.Keys == all.Keys && forall p :: p in all ==> r[p] == RemoveAll(all[p], id)
    requires forall p :: p in all ==> id !in all[p]
    ensures r == all
  {
    forall p | p in all ensures r[p] == all[p] {
      RemoveAllKeeps(all[p], id);
    }
  }

  lemma FoundIsQueued(s: State, id: int)
    requires QueuesTidy(s) && id in s.tasks
    ensures Queued(s, id) <==> exists p :: p in s.queues && id in s.queues[p]
  {
    hide NoDup;
    forall p | p in s.queues && id in s.queues[p] ensures Queued(s, id) {
      assert id in QueueOf(s.queues, p);
      assert s.tasks[id].priority == p;
    }
    if Queued(s, id) {
      assert s.tasks[id].priority in s.queues;
    }
  }

  lemma PlacedLists(s: State, id: int)
    requires Placed(s)
    ensures QueuesTidy(s) && NoDup(s.doing) && (Live(s, id) <==> Queued(s, id) || id in s.doing)
  {}

  lemma CompleteApplies(s: State, id: int)
    requires id in s.running && id in s.tasks
    ensures Enabled(s, Complete(id)) && Apply(s, Complete(id)) == CompleteNode(s, id)
  {
    hide CompleteNode;
  }

  lemma CancelApplies(s: State, id: int)
    ensures Enabled(s, Cancel(id))
    ensures Apply(s, Cancel(id)) == if Live(s, id) && id in s.tasks then CancelLive(s, id) else s
  {
    hide CancelLive;
  }

  lemma CompleteIs(s: State, id: int, s2: State)
    requires HasNode(s, id)
    requires var t := s.tasks[id];
      s2 == s.(log := s.log[id := LogOf(s, id) + [t.nodes[t.index]]], running := s.running - {id},
               tasks := s.tasks[id := t.(path := [], index := t.index + 1)])
    ensures CompleteNode(s, id) ==
            if s.tasks[id].cancelled then s2 else Enqueue(s2.(doing := RemoveAll(s.doing, id)), id)
  {
    hide Enqueue, RemoveAll, LogOf;
  }

  lemma RunningFacts(s: State, id: int)
    requires Placed(s) && id in s.running && id in s.tasks
    ensures HasNode(s, id) && NoDup(s.doing) && (!s.tasks[id].cancelled ==> id in s.doing)
  {}
}
