# AGV dispatch core, modelled and verified

This project models the dispatch core of an AGV fleet server and proves what its parts promise each
other: the route planner and the reservations it reads, the dispatcher that writes them, the task life
cycle around it, mutual exclusion in blocks, the release of reservations on arrival, the cutting of
routes at elevators, and four codecs the server talks through.

| file | models |
|---|---|
| `Wrappers.dfy` | helpers shared by the modules |
| `Maps.dfy` | the map layer `mapmap/onemap.cpp`: one list of elements, lookups as loops over it |
| `LineSearch.dfy` | the invariants of the search over lines: colours, fathers, the queue ordered by distance |
| `Reservations.dfy` | the reservation tables as a value, and what adding and freeing does to them |
| `Routes.dfy` | the reference definition of a route: the filter, the adjacency, the shortest route |
| `ShortestRoutes.dfy` | what a shortest route is like: its lines join, and it comes to no place twice |
| `RoadRules.dfy` | the rules of the road in terms of points, lines and reservations alone; the line relations, the filter and the planner's answers amount to them |
| `MapManager.dfy` | `MapManager` with its tables as mutable fields; the planner, method by method |
| `Traffic.dfy` | runs that interleave planning, detours, committing and releasing, and what stays true in them |
| `Tasks.dfy`, `TaskTrace.dfy`, `TaskQueues.dfy` | the task life cycle as steps over one state; the nodes each task executed; the order inside the queues |
| `TaskManager.dfy` | `TaskManager` with its lists as mutable fields; the choice of vehicle and route |
| `Blocks.dfy` | `BlockManager`: nested vectors that implement a set of facts |
| `Vehicles.dfy` | arrival and departure of a vehicle, with its releases; the way from the dispatch to the goal |
| `Findings.dfy` | concrete runs in which a property that one would expect fails |
| `SqliteBinary.dfy` | the SQLite-safe binary codec and `CppSQLite3Binary` |
| `TcsMessage.dfy` | the TCS message printer and parser |
| `ModbusCrc.dfy`, `ChargeFraming.dfy` | the charger's CRC and the framing of its byte stream |
| `Base64.dfy` | Base64 |
| `Elevator.dfy` | the five parts of an elevator route; batches of one driving direction |

Objects whose methods change fields are classes with `modifies` clauses, each method proved equal to a
function or relation of the old state; the properties are lemmas about those. `IsMap` states what the
planner takes for granted of a loaded map: unique positive ids, no negative length, and a total length
below `DISTANCE_INFINITY` (`common.h:27`). Every operation is one atomic step; threads and sockets become
steps and sequences.

What the proofs showed about the code:

- The search always finishes with the shortest route over lines that pass the filter, its sums never leave
  the range of `int`, and the loop that would erase a turn straight back never finds one. Written out: the
  answer is a shortest trip over open lines (`PlannedTrip`, `NoShorterTrip`), it never passes a station another
  vehicle owns nor a work point away from its ends, and it is empty exactly when there is no such trip or a
  station is unknown or taken (`NothingPlanned`).
- Two vehicles never hold lines that swap stations or that join the same two places backwards
  (`NeverFaceToFace`).
- No decision of the dispatcher, detours included, brings two vehicles head on, takes a reservation from
  anybody, or makes a group record wrong (`DecisionsAreSafe`, carried through `Sweep`).
- When no route exists, an idle vehicle between stations is planned to the halt point found for a vehicle
  before it, and reserves its own nearest one. They are the same exactly when its own is free for that other
  vehicle, and otherwise it already owns the one it reserves (`NearestHaltsDiffer`, `DetourTarget`); they can
  differ (`DetourReservesElsewhere`).
- Releasing a station or a line rewrites the owner of its groups to whoever releases. The group records stay
  right exactly when every recorded group of the spirit belongs to the releaser (`StationReleaseSoundIff`,
  `LineReleaseSoundIff`, over runs `GroupsSoundIffOwned`). An arrival also gives back the stations the
  vehicle passed and never reserved, so it breaks a record exactly when one of them, or anything else it
  gives back, is in a group recorded for another vehicle (`ArrivalSoundIff`); a run of two dispatches and one
  arrival does it (`PassingRewritesGroup`).
- A vehicle that arrives looks for a block in its way on the first path of the map between this station and the
  next (`LooksAhead`). When two lines are parallel that need not be the line it will drive, so it can go on
  although the block of its own line is occupied (`LooksAtOtherLine`).
- From its dispatch to its goal a vehicle keeps the goal and every line it has yet to drive, whatever happens
  in between, and at the goal it holds the goal alone (`DispatchedRun`). That rests on the planner: an
  arrival would give back lines that are still ahead exactly when the route comes to that station again
  (`LinesAheadIff`), which a shortest route of positive lines never does (`ShortestNoStationTwice`).
- Cancelling (or finishing) a task sets the vehicle it names idle even when that vehicle serves another task.
  Tasks and vehicles stay matched exactly when it does not (`CancelKeepsIff`, `FinishKeepsIff`, over runs
  `OneTaskIff`); short runs break the match (`CancelFreesServing`, `FinishFreesServing`).
- Cancelling a running task leaves its thread running while its vehicle is idle, so a second thread can start
  on that vehicle (`CancelledThreadRuns`). Two threads never work on one vehicle exactly when none is started
  on a vehicle another still works on (`OneThreadIff`).
- A halt detour executes the halt node exactly when the task's index is 0; otherwise the previous node is
  executed once more (`DetourThenComplete`).
- The priority map is walked in ascending order, so the lowest priority is served first (`Sweep`); within a
  priority the task that came first stands in front (`FirstComeFirst`).
- A task that names a vehicle waits while that vehicle serves another task, and otherwise goes to its node as soon
  as the vehicle has a route there (`OwnDecision`); one that names none goes as soon as any idle vehicle has one
  (`AnyGoes`), with an idle vehicle that is nearest (`AnyNearest`).
- The printer escapes characters that the parser does not unescape, so a message comes back exactly when it
  is clean (`RoundTripIff`).
- The five elevator parts make up the route only under a condition on its elevator stations
  (`SplitIsRouteIff`, `SplitIsRouteIf`), and a first line of speed zero puts all lines into one batch (`ZeroTakesAll`).
- After leaving a station a vehicle has a next station exactly when one of its lines starts at station 0,
  because the look-up uses a field that was just set to 0 (`LeavingForgetsNext`).
- Testing a block and entering it are two critical sections. Blocks stay exclusive exactly when every entry
  finds its blocks still free (`ExclusiveIffFreeAtEntry`); two vehicles that test before either enters end up
  in one block exactly when their lists share one (`TestThenEnterRaces`, `TwoVehiclesInOneBlock`).
- The loop that waits for a line and its end keeps the line's blocks while it retries. A waiting vehicle can
  still get through exactly when the blocks of its end are free for it now (`GetsThroughIff`); two vehicles
  that each hold a block the other needs at its end wait forever (`StuckForever`, `StuckFromEmpty`).

## Model

| member | source | states |
|---|---|---|
| Maps.PathByIdFinds | mapmap/onemap.cpp:75-82 | a lookup by id finds a path of the map with that id, and with unique ids every path is found under its id |
| Maps.PointByIdFinds | mapmap/onemap.cpp:66-73 | a lookup by id finds a point of the map with that id, and with unique ids every point is found under its id |
| Maps.OneMap.AddSpirit | mapmap/onemap.cpp:21-24 | an element goes to the end of the list |
| Maps.OneMap.RemoveSpiritById | mapmap/onemap.cpp:31-40 | exactly the elements with another id are left, in their order |
| Maps.OneMap.GetSpiritById | mapmap/onemap.cpp:58-64 | the loop finds the first element with the id, or none |
| Maps.OneMap.GetPointById | mapmap/onemap.cpp:66-73 | the loop finds the first point with the id, or none |
| Maps.OneMap.GetPathById | mapmap/onemap.cpp:75-82 | the loop finds the first path with the id, or none |
| Maps.OneMap.GetPathByStartEnd | mapmap/onemap.cpp:84-95 | the loop finds the first path from one station to another, or none exists |
| Maps.OneMap.GetPaths | mapmap/onemap.cpp:155-163 | all paths of the list, in order |
| Maps.PathsInOrder | mapmap/onemap.cpp:155-163 | every path is in that list, and paths come in the order of the map |
| Maps.OneMap.GetGroups | mapmap/onemap.cpp:204-216 | all groups of one type, in order |
| Maps.OneMap.GetBlocks | mapmap/onemap.cpp:191-202 | all blocks, in order |
| Reservations.RecordAt | mapmap/mapmanager.cpp:120-166 | after recording, exactly the groups of the spirit name the vehicle as owner and list the spirit in addition to what they listed |
| Reservations.ForgetAt | mapmap/mapmanager.cpp:168-233 | after forgetting, a group of the spirit is gone when nothing else was listed, and otherwise is rewritten to the releasing vehicle without the spirit |
| Reservations.AddLinesHolds | taskmanager.cpp:143-147 | a dispatch adds its vehicle as a holder of exactly the lines of the route and removes nobody |
| Routes.OpposesSymmetric | mapmap/mapmanager.cpp:1166-1208 | the relation "driven against" that is built from the map is symmetric |
| Routes.RoutesAreWalks | mapmap/mapmanager.cpp:1078-1160 | routes by the filter and the adjacency are exactly the walks of the graph the search runs on that end at a line into the goal |
| RoadRules.ListedIff | mapmap/mapmanager.cpp:1166-1208 | the reverse relation lists exactly the other lines that join the same two places (realX, realY) backwards |
| RoadRules.ListedBackwards | mapmap/mapmanager.cpp:1196-1204 | a line with the stations swapped is listed, and one the same way between two different places is not |
| RoadRules.DrivableIsOpen | mapmap/mapmanager.cpp:691-737 | a line passes the filter of a search if and only if it ends at a known point that is no work point or touches an exempt station, no line the other way and, for a line that leaves the goal, not the line itself is held by another vehicle, its end is free or the vehicle's, and so are its COMMON groups |
| RoadRules.ExemptIs | mapmap/mapmanager.cpp:1000-1040 | the exempt stations are the two ends and the points to load at, or without turning, one line away from them |
| RoadRules.RouteIsTrip | mapmap/mapmanager.cpp:1078-1160 | a route is a sequence of lines of the map, each starting where the one before ends and none turning straight back, from the start to the goal |
| RoadRules.TripIsRoute | mapmap/mapmanager.cpp:1078-1160 | and every such sequence of lines that pass the filter is a route, with the sum of their lengths |
| RoadRules.PlannedTrip | mapmap/mapmanager.cpp:950-1163 | every non-empty answer to a goal elsewhere is a trip over open lines from the known stations to the goal; no line of it ends at a station that another vehicle owns |
| RoadRules.PlannedWorkPoints | mapmap/mapmanager.cpp:691-706 | a line of an answer ends at a charge, load, unload, load-unload or no-turn point only when it touches the start, the goal, or a load or no-turn point one line away from them |
| RoadRules.NoShorterTrip | mapmap/mapmanager.cpp:950-1163 | whenever the stations are known and free and there is a trip over open lines, there is an answer, and it is no longer |
| RoadRules.NothingPlanned | mapmap/mapmanager.cpp:950-978 | without such a trip, or with a station unknown or taken, the answer is empty at infinite distance |
| RoadRules.AlreadyThere | mapmap/mapmanager.cpp:980-991 | at the goal the answer is empty at distance 0, or, with permission to turn around, every line from the last station to this one, with the length of the last of them |
| RoadRules.FreeTrip | mapmap/mapmanager.cpp:831-948 | a finite answer of the search without reservations is a trip between two points of the map with its length |
| RoadRules.NoShorterFreeTrip | mapmap/mapmanager.cpp:831-948 | and no trip is shorter |
| RoadRules.NearestHaltIs | mapmap/mapmanager.cpp:786-829 | the nearest halt point is a halt point that is free for the vehicle, with a trip to the goal; no free halt point is nearer to the goal, and those before it in the list are farther |
| Routes.ShortestUnique | mapmap/mapmanager.cpp:831-948 | a query without reservations has one distance |
| LineSearch.Seed | mapmap/mapmanager.cpp:1057-1076 | putting a white source into the queue keeps the start-up invariant |
| LineSearch.Seeded | mapmap/mapmanager.cpp:1057-1078 | with all sources queued the search invariant holds before the first round |
| LineSearch.StartRound | mapmap/mapmanager.cpp:1081-1086 | taking the front of the queue: nothing queued is nearer, its distance is that of a walk to it and no walk to it is shorter, and the invariant goes on |
| LineSearch.Update | mapmap/mapmanager.cpp:1088-1118 | giving a neighbour a shorter way keeps the queue equal to the gray lines, each once at its distance, fathers black before their children, and all distances bounded |
| LineSearch.FinishRound | mapmap/mapmanager.cpp:1120-1124 | each round blackens exactly one more line and keeps the invariant |
| LineSearch.NoOverflow | mapmap/mapmanager.cpp:1094-1110 | every sum of a distance and a length stays below `DISTANCE_INFINITY` |
| LineSearch.NoWalkIsShorter | mapmap/mapmanager.cpp:1078-1124 | when the queue is empty the last line of any walk is black and no farther than that walk |
| LineSearch.SearchIsShortest | mapmap/mapmanager.cpp:1078-1124 | a state that keeps the invariant with nothing queued has shortest distances everywhere: each finite one is attained by a walk and none is beaten |
| MapManagers.MapManager.GetAdj | mapmap/mapmanager.cpp:1287-1301 | the adjacency lists exactly the lines that continue a line without turning straight back |
| MapManagers.MapManager.GetReverseLines | mapmap/mapmanager.cpp:1166-1208 | the reverse relation lists exactly the other lines that join the same two places backwards |
| MapManagers.MapManager.GetGroup | mapmap/mapmanager.cpp:1345-1359 | the COMMON groups that list the spirit |
| MapManagers.MapManager.AddOccuStation | mapmap/mapmanager.cpp:120-141 | the new tables: the station is the vehicle's and its groups record it |
| MapManagers.MapManager.AddOccuLine | mapmap/mapmanager.cpp:143-166 | the new tables: the vehicle is among the line's holders, once, and the line's groups record it |
| MapManagers.MapManager.FreeOccuStation | mapmap/mapmanager.cpp:168-196 | the new tables: the station is free if it was the vehicle's, and its groups forget it |
| MapManagers.MapManager.FreeOccuLine | mapmap/mapmanager.cpp:198-233 | the new tables: the vehicle no longer holds the line, and its groups forget it |
| MapManagers.MapManager.PathPassable | mapmap/mapmanager.cpp:691-737 | true if and only if the end is known and no work point outside the exempt ones, no listed reverse line is held by another vehicle, the end is nobody's or the vehicle's, and so is every recorded COMMON group of the line or its end |
| MapManagers.MapManager.CollectUturnPoints | mapmap/mapmanager.cpp:1000-1040 | the exempt points are both ends and the exempt kinds one line away from them |
| MapManagers.MapManager.Search | mapmap/mapmanager.cpp:1078-1124 | the loop ends, and in the table it returns every finite distance is the length of a drivable walk to that line and no drivable walk is shorter |
| MapManagers.MapManager.ChooseEnd | mapmap/mapmanager.cpp:1126-1140 | the nearest black line into the goal is chosen, and none exactly when there is none |
| MapManagers.MapManager.WalkFathers | mapmap/mapmanager.cpp:1141-1152 | the walk back over fathers ends, and is the walk the search found |
| MapManagers.ChosenIsRoute | mapmap/mapmanager.cpp:1126-1152 | what the walk back yields is a route of the query with the chosen distance |
| MapManagers.ChosenIsNearest | mapmap/mapmanager.cpp:1126-1152 | no route of the query is shorter than the chosen one |
| MapManagers.NeverTurnsBack | mapmap/mapmanager.cpp:1153-1160 | a route never turns straight back on its last lines, so the erase at the end is unreachable |
| MapManagers.MapManager.GetPath | mapmap/mapmanager.cpp:950-1163 | behind its guards the planner answers with a route that is minimal over all routes and its length, and with nothing at infinite distance exactly when no route exists |
| MapManagers.MapManager.GetFreePath | mapmap/mapmanager.cpp:831-948 | the same over all lines, ignoring reservations |
| MapManagers.MapManager.GetBestPath | mapmap/mapmanager.cpp:666-689 | the planner's answer, or with permission to turn around the shorter of two answers; nothing while the map is being modified |
| MapManagers.BetterIsShorter | mapmap/mapmanager.cpp:666-689 | with permission to turn around the answer is one of the two, ahead or behind, and neither is shorter |
| MapManagers.MapManager.GetNearestHaltStation | mapmap/mapmanager.cpp:786-829 | the first in the list of the free halt points that can reach the goal and are nearest to it, or -1 when none can reach it |
| Routes.NearestHaltsDiffer | mapmap/mapmanager.cpp:786-829 | two vehicles whose searches end at different halt points, the first one's being free for the second: the second already owns its own; and they are the same if and only if the second one's is free for the first |
| MapManagers.MapManager.ReserveRoute | taskmanager.cpp:143-147 | the tables after a dispatch: goal station first, then every line |
| MapManagers.NoOverflowInRound | mapmap/mapmanager.cpp:1094-1110 | the sums of a round stay below `DISTANCE_INFINITY` |
| Traffic.PlannedIsUnopposed | mapmap/mapmanager.cpp:707-714 | a planned route has no line against which another vehicle holds a line, and its goal is free for its vehicle |
| Traffic.ReserveKeepsNoHeadOn | taskmanager.cpp:143-147 | reserving an unopposed route leaves nobody head on |
| Traffic.HeadOnKept | taskmanager.cpp:257-275 | every step, detours included, keeps nobody head on and the pending route unopposed, whoever releases in between |
| Traffic.NeverHeadOn | taskmanager.cpp:139-154 | in every run, in every state: two vehicles never hold lines that are driven against each other |
| Traffic.NeverFaceToFace | mapmap/mapmanager.cpp:1196-1204 | in every run, in every state: two vehicles never hold two lines a and b with a.start = b.end and a.end = b.start, nor two lines that join the same two places (realX, realY) backwards |
| Traffic.NoStationStolen | taskmanager.cpp:139-154 | a reserved station changes hands only through a release, detours included |
| Traffic.HoldersListedOnce | mapmap/mapmanager.cpp:143-166 | in every run from empty tables no vehicle is listed twice as the holder of a line, so that the planner's test of a holder list says exactly whether another vehicle holds the line |
| Traffic.StationReleaseSoundIff | mapmap/mapmanager.cpp:168-196 | freeing a station keeps the group records right if and only if every recorded group of it belongs to the releaser |
| Traffic.LineReleaseSoundIff | mapmap/mapmanager.cpp:198-233 | the same for a line |
| Traffic.OneVehiclePerGroup | mapmap/mapmanager.cpp:721-734 | with right records two vehicles never hold spirits of one COMMON group |
| Traffic.PlannedIsOpen | mapmap/mapmanager.cpp:721-734 | a planned route and its goal touch only groups that are unrecorded or the vehicle's own |
| Traffic.DetourIsOpen | taskmanager.cpp:157-230 | a detour touches only groups that are unrecorded or the vehicle's own, also when it reserves a halt point the vehicle already owns instead of the planned one |
| Traffic.GroupInvKept | mapmap/mapmanager.cpp:120-233 | every step, detours included, keeps the group records right when releases are by owners |
| Traffic.GroupsAlwaysSound | mapmap/mapmanager.cpp:120-233 | in every run from empty tables whose releases are by owners the group records match the reservations in every state |
| Traffic.GroupsSoundIffOwned | mapmap/mapmanager.cpp:168-233 | in every run from empty tables the records match the reservations in every state if and only if every release is by the owner of the spirit's recorded groups |
| Traffic.OwnReleasesSoundIff | agv.cpp:110-146 | a vehicle that gives back several spirits one after the other leaves the records right if and only if, before it began, every recorded group of each of them was its own |
| Blocks.AddOccu | mapmap/blockmanager.cpp:67-82 | exactly the fact (vehicle, spirit) is added to the block and entries stay unique |
| Blocks.RemoveOccu | mapmap/blockmanager.cpp:84-92 | exactly that fact is removed |
| Blocks.BlockManager.BlockPassable | mapmap/blockmanager.cpp:167-179 | true if and only if no block of the list is occupied by another vehicle |
| Blocks.BlockManager.TryAddBlockOccu | mapmap/blockmanager.cpp:123-151 | all or nothing: all facts of the list are added when every block is free for the vehicle, and otherwise nothing changes |
| Blocks.BlockManager.FreeBlockOccu | mapmap/blockmanager.cpp:153-165 | exactly the vehicle's facts for the spirit in those blocks are removed |
| Blocks.BlockManager.Clear | mapmap/blockmanager.cpp:181-185 | no fact is left |
| Blocks.EffectKeepsExclusive | mapmap/blockmanager.cpp:123-165 | entering and leaving keep at most one vehicle per block |
| Blocks.AlwaysExclusive | mapmap/blockmanager.cpp:123-165 | in every run from the empty manager at most one vehicle occupies any block |
| Blocks.OnlyOccupantEnters | mapmap/blockmanager.cpp:94-101 | while a vehicle occupies a block, that vehicle and no other may enter it |
| Blocks.EntryExclusiveIff | mapmap/blockmanager.cpp:130-149 | entering keeps one vehicle per block if and only if all blocks of the list are free for it at the moment of entry |
| Blocks.ExclusiveIffFreeAtEntry | mapmap/blockmanager.cpp:123-165 | with test and entry as separate steps, in every run from the empty manager: one vehicle per block throughout if and only if every entry finds its blocks free |
| Blocks.TestThenEnterRaces | mapmap/blockmanager.cpp:123-151 | when two vehicles pass their tests before either enters, no block ends up with both if and only if their lists have no block in common |
| Blocks.TwoVehiclesInOneBlock | mapmap/blockmanager.cpp:123-151 | a run in which two tests and then two entries put two vehicles into one block |
| Blocks.RoundKeepsExclusive | virtualrosagv.cpp:211-229 | a round of the waiting loop keeps at most one vehicle per block |
| Blocks.LineEntriesStick | virtualrosagv.cpp:211-229 | two vehicles that enter the blocks of their lines, each holding a block the other needs at its end, are stuck |
| Blocks.StuckForever | virtualrosagv.cpp:211-229 | while both only wait, in whatever order they try, neither ever gets the blocks of its end |
| Blocks.GetsThroughIff | virtualrosagv.cpp:211-229 | from any state, two waiting vehicles have a way to go on in which the first gets the blocks of its end if and only if those are free for it now |
| Blocks.StuckFromEmpty | virtualrosagv.cpp:211-229 | two entries from the empty manager after which both vehicles are stuck for good |
| Vehicles.Agv.TryGo | virtualrosagv.cpp:211-229 | a round succeeds if and only if no block that lists the line or its end is occupied by another vehicle; it enters the line in the blocks that list the line when those are free, and then the end in the blocks that list the end |
| Vehicles.ReleaseLinesHolds | agv.cpp:110-146 | the release loop gives back exactly the passed stations and the driven lines, and only this vehicle's |
| ShortestRoutes.ShortestMeetsGoalOnce | mapmap/mapmanager.cpp:950-1163 | a shortest route of positive lines reaches its goal only with its last line |
| Vehicles.ArrivalAtGoal | agv.cpp:82-146 | driven to its goal a route is given back whole, and the vehicle still holds the goal if and only if no earlier line ends there |
| Vehicles.DispatchedArrival | agv.cpp:82-146 | an arrival at the goal of a dispatched route of positive lines, while the goal is owned, leaves the vehicle none of the lines and of its stations exactly the goal |
| Vehicles.DispatchedRun | agv.cpp:64-215 | from the dispatch on, through any steps of others and the vehicle's own arrivals and departures, it keeps its goal and every line not yet driven; at the goal it holds none of the route's lines and of its stations exactly the goal |
| ShortestRoutes.ShortestNoStationTwice | mapmap/mapmanager.cpp:950-1163 | a shortest route of positive lines comes to no station twice |
| ShortestRoutes.ShortestNoLineTwice | mapmap/mapmanager.cpp:950-1163 | and drives no line twice |
| ShortestRoutes.StartNotEntered | mapmap/mapmanager.cpp:950-1163 | and never comes back to its start |
| Vehicles.LinesAheadIff | agv.cpp:110-146 | an arrival keeps every line ahead if and only if no line ahead ends at the same station |
| Vehicles.ArrivalKeepsAhead | agv.cpp:110-146 | an arrival on a shortest route gives back no line ahead |
| Vehicles.GoalSurvivesArrival | agv.cpp:82-146 | an arrival on the way keeps the goal |
| Vehicles.ArrivalIsRun | agv.cpp:82-146 | an arrival is a run of release steps of the reservation system, so the safety of runs applies to it |
| Vehicles.ArrivalSoundIff | agv.cpp:82-146 | an arrival leaves the group records right if and only if every recorded group of everything it gives back was the vehicle's own before |
| ShortestRoutes.RouteConnects | mapmap/mapmanager.cpp:1287-1301 | consecutive lines of a route share a station |
| Vehicles.Agv.LoadPath | virtualrosagv.cpp:44-57 | the executed lines and, for the known ones, the stations they end at |
| Vehicles.Agv.OnArriveStation | agv.cpp:64-190 | the new station fields, namely as next station the one behind the first occurrence of this one, 0 when it is the last and unchanged when there is none; the new reservations; the block facts, namely those of the station entered when all its blocks are free and those of everything given back removed; and a stop exactly when a block of the station, or of the line ahead, is occupied by another vehicle; nothing at an unknown station |
| Vehicles.LooksAhead | agv.cpp:160-187 | on a shortest route of positive lines: at the end of line i the vehicle sees a block in its way if and only if another vehicle occupies a block of the first path of the map between this station and the next, which is line i+1 when no other path joins the two |
| Vehicles.Agv.OnLeaveStation | agv.cpp:192-274 | the new station fields, the station given back with its block facts, the facts of the line ahead entered when all its blocks are free, and a stop exactly when they are not or a block of the next station is taken |
| Vehicles.LeavingForgetsNext | agv.cpp:192-274 | a vehicle that left a station has a next station if and only if the first of its lines that starts at station 0 ends at another station |
| Vehicles.LeavingForgetsOnMaps | agv.cpp:192-274 | on a map with positive stations it never has one |
| Tasks.PlacedKept | taskmanager.cpp:384-408 | every step keeps each task in exactly one place: once in the queue of its own priority, executing, done, or cancelled |
| Tasks.TasksConserved | taskmanager.cpp:331-408 | in every run no task is lost or duplicated |
| Tasks.CancelledStaysOut | taskmanager.cpp:655-666 | a cancelled task that is in no queue never gets into one again |
| TaskQueues.FirstComeFirst | taskmanager.cpp:384-408 | in every run: while a task waits, every task that enters its queue later stands behind it for as long as both wait |
| TaskQueues.CancelMarks | taskmanager.cpp:505-566 | cancelling marks the task and the task that the vehicle it names serves, and no other |
| TaskQueues.StartGives | taskmanager.cpp:139-154 | what a start changes: the task's vehicle, route and, on a detour, first node, the vehicle's task and status, and the list of executing tasks |
| TaskQueues.CompleteGives | taskmanager.cpp:655-666 | what the end of a thread changes: the next node is up, the route is forgotten, and the task leaves the executing ones unless it was cancelled |
| Tasks.HeldKept | taskmanager.cpp:53-150 | every careful step keeps tasks under way and busy vehicles matched |
| Tasks.CancelKeepsIff | taskmanager.cpp:505-566 | cancelling keeps them matched if and only if the vehicle the task names serves no other task |
| Tasks.FinishKeepsIff | taskmanager.cpp:569-591 | finishing keeps them matched if and only if the vehicle the task names serves no other task |
| Tasks.FinishedIsClear | taskmanager.cpp:57-72 | a task with a node that reached its end is served by the vehicle it names |
| Tasks.AlwaysOneTaskPerVehicle | taskmanager.cpp:240-276 | in every careful run two executing tasks never share a vehicle, and a vehicle whose task has started and is not finished is never idle |
| Tasks.OneTaskIff | taskmanager.cpp:505-591 | in every run from a fresh state: no two executing tasks share a vehicle and no vehicle is idle in the middle of a task, throughout, if and only if no task that is cancelled or finished names a vehicle that serves another task |
| Tasks.OneThreadIff | taskmanager.cpp:593-675 | in every run two threads never work on one vehicle if and only if no thread is started on a vehicle that another still works on |
| Tasks.OnlyCancelledThreads | taskmanager.cpp:505-566 | while tasks and vehicles match, the only thread that can still work on a vehicle that is given a task is that of a cancelled one |
| TaskTrace.TracesKept | taskmanager.cpp:593-675 | every step keeps what a task has executed equal to its finished rounds and the nodes before its index |
| TaskTrace.DoneMeansExecuted | taskmanager.cpp:57-78 | in every run a done task without detour has executed its node list in order exactly max(1, runTimes) times |
| TaskTrace.WorkAddsUp | taskmanager.cpp:57-78 | executed nodes and remaining executions add up to what the task was submitted for |
| TaskTrace.RemainingCountsDown | taskmanager.cpp:655-666 | every completed node takes one from the remaining executions and no other step changes them |
| TaskTrace.DetourThenComplete | taskmanager.cpp:307-319 | on a detour the halt node is executed exactly when the index is 0, else the previous node again, and the task goes on with the node it was at |
| TaskManagers.PushFrontNode | agvtask.h:69-73 | reversing, appending and reversing puts the node in front of the list |
| TaskManagers.TaskManager.AddTask | taskmanager.cpp:384-408 | a new task gets a fresh id and the back of its priority's queue |
| TaskManagers.TaskManager.CompleteNode | taskmanager.cpp:655-666 | the end of the thread is the completion step: next index, off the executing list and back to the queue unless cancelled |
| TaskManagers.TaskManager.CancelTask | taskmanager.cpp:505-566 | the loops over the queues and the executing list amount to the cancel step; an unknown id changes nothing |
| TaskManagers.TaskManager.NearestVehicle | taskmanager.cpp:95-137 | an idle vehicle with a route to the goal than which no idle vehicle has a shorter one, the first in the list on a tie, or none when nobody has a route |
| TaskManagers.TaskManager.HaltingVehicle | taskmanager.cpp:157-208 | an idle vehicle with a route, planned to its own first nearest halt point when it is at a station and else to that of a vehicle before it; the halt point it will reserve; and no vehicle at a station is nearer to its own |
| TaskManagers.TaskManager.DistributeAny | taskmanager.cpp:93-239 | for a task that names no vehicle: which step is taken, by which vehicle (the first of the nearest), on which route, with which reservations, and why none |
| TaskManagers.TaskManager.DistributeOwn | taskmanager.cpp:240-324 | the same for a task that names a vehicle |
| TaskManagers.EndedDecision | taskmanager.cpp:57-78 | a task is finished, or begins its next round, if and only if its index is behind its last node and no more, or more, than one round is left |
| TaskManagers.OwnDecision | taskmanager.cpp:240-276 | while the vehicle a task names serves another task nothing happens; when it serves this one and the node has no station the task is resumed; otherwise it is sent to its node whenever the vehicle has a route there, and only then |
| TaskManagers.OwnDetours | taskmanager.cpp:277-324 | without a route the vehicle goes to wait at the halt point nearest to the node in projects that make such detours, never from a halt point, and otherwise whenever it has a route there |
| TaskManagers.AnyGoes | taskmanager.cpp:93-154 | a task that names no vehicle is sent to its node as soon as an idle vehicle has a route there from where it is or is heading |
| TaskManagers.AnyNearest | taskmanager.cpp:93-154 | and then an idle vehicle goes whose route is not longer than that of any other, and shorter than that of any before it in the list |
| TaskManagers.AnyDetours | taskmanager.cpp:157-239 | which vehicle is sent to wait, where its route leads, which halt point it reserves, and that no idle vehicle at a station is nearer to its own |
| TaskManagers.SentOnTrip | taskmanager.cpp:139-154 | a task is sent to its node by a trip over open lines from where its vehicle is; afterwards the vehicle owns the node's station and holds exactly those lines in addition, and nothing else has changed |
| TaskManagers.TaskManager.DistributeTask | taskmanager.cpp:53-329 | every branch is an enabled step of the life cycle and writes exactly the reservations of the route it starts; finished, next round and resumed exactly in their cases; nothing happens while the named vehicle serves another task, and otherwise the task is sent to its node whenever that vehicle has a route there |
| TaskManagers.DispatchIsPlanThenCommit | taskmanager.cpp:139-319 | every dispatch, to the goal or to a halt point, is a planning step and a commit of the reservation system, so the safety of runs applies to it |
| TaskManagers.DetourTarget | taskmanager.cpp:157-230 | a vehicle with a route to wait somewhere has a nearest halt point of its own, which is where the route leads or a station it already owns |
| TaskManagers.DecisionsKeepNoHeadOn | taskmanager.cpp:139-319 | no decision, detours included, brings two vehicles head on |
| TaskManagers.DecisionsKeepGroups | taskmanager.cpp:53-329 | every decision, detours included, keeps the group records right |
| TaskManagers.DecisionsTakeNothing | taskmanager.cpp:53-329 | no decision, detours included, takes a station or a line from anybody |
| TaskManagers.TaskManager.Sweep | taskmanager.cpp:355-378 | one sweep offers every queued task once, in ascending order of priority and front to back, is a run of steps, keeps nobody head on and the group records right, and takes no reservation from anybody |
| SqliteBinary.RoundTrip | sqlite3/CppSQLite3.cpp:1413-1484 | decoding an encoding gives every byte string back, and the text holds neither 0x00 nor 0x27 |
| SqliteBinary.CodeOfByte | sqlite3/CppSQLite3.cpp:1434-1450 | every byte stands in its place as its distance from the offset, the distances 0x00, 0x01 and 0x27 as 0x01 0x01, 0x01 0x02 and 0x01 0x03 |
| SqliteBinary.EncodeDecoded | sqlite3/CppSQLite3.cpp:1434-1484 | a safe text that decodes is the encoding, at its own offset, of what it decodes to |
| SqliteBinary.EscapesAreCounts | sqlite3/CppSQLite3.cpp:1422-1433 | the three counts the search adds up are the number of bytes that must be escaped |
| SqliteBinary.Pigeonhole | sqlite3/CppSQLite3.cpp:1422-1433 | some legal offset needs at most 3n/254 escapes |
| SqliteBinary.SizeBound | sqlite3/CppSQLite3.cpp:1413-1453 | output with terminator takes at most 2 + 257n/254 bytes |
| SqliteBinary.DocumentedSizeFits | sqlite3/CppSQLite3.cpp:249-272 | a buffer of the documented size has room for every encoding of its bytes |
| SqliteBinary.ReencodingFits | sqlite3/CppSQLite3.cpp:206-240 | what an escaped text decodes to can be encoded again in the space of the text |
| SqliteBinary.ChooseOffset | sqlite3/CppSQLite3.cpp:1418-1433 | the search always assigns a legal offset with the fewest escapes |
| SqliteBinary.EncodeBinary | sqlite3/CppSQLite3.cpp:1413-1453 | the buffer holds an encoding and its terminator, nothing behind it changed, and the length is returned |
| SqliteBinary.DecodeBinary | sqlite3/CppSQLite3.cpp:1465-1484 | the decoded bytes and their number, or -1; also when both buffers are the same one |
| SqliteBinary.CppSQLite3Binary.SetBinary | sqlite3/CppSQLite3.cpp:178-183 | the object stands for the bytes and has room to encode them |
| SqliteBinary.CppSQLite3Binary.SetEncoded | sqlite3/CppSQLite3.cpp:185-204 | the object stands for what the text decodes to |
| SqliteBinary.CppSQLite3Binary.GetEncoded | sqlite3/CppSQLite3.cpp:206-219 | the content stays, now in encoded form, within the same buffer |
| SqliteBinary.CppSQLite3Binary.GetBinary | sqlite3/CppSQLite3.cpp:221-240 | the content stays, now decoded in place |
| SqliteBinary.CppSQLite3Binary.AnswerAll | sqlite3/CppSQLite3.cpp:178-246 | over any sequence of calls on an object that was set to bytes or to an escaped text: every answer is about the same content, every text is escaped and decodes to it, and the buffer is neither replaced nor outgrown |
| TcsMessage.DecimalValue | qunchuang/msg.cpp:75-94 | a printed number has the value it was printed from |
| TcsMessage.EscapedControls | qunchuang/msg.cpp:38-73 | which control character is printed as what, in front of any text |
| TcsMessage.EscapedOthers | qunchuang/msg.cpp:38-73 | of the other bytes the quote, the backslash and the two line separators are escaped, and nothing else |
| TcsMessage.PrintedExample | qunchuang/msg.cpp:34-100 | the printed text of a message with every kind of value |
| TcsMessage.NumbersClamp | qunchuang/msg.cpp:347-374 | a printed number in front of no digit is read back, clamped to the range of an int |
| TcsMessage.SpaceInFront | qunchuang/msg.cpp:222-238 | blanks and the control characters 9 to 13 in front of a message change nothing |
| TcsMessage.EscapeGrows | qunchuang/msg.cpp:38-73 | printing a string changes it, and makes it longer, exactly when it holds a character or sequence that is escaped |
| TcsMessage.ParsePrinted | qunchuang/msg.cpp:205-333 | parsing a printed message in front of any text gives the message with its strings as printed and stops behind it |
| TcsMessage.ParsedShape | qunchuang/msg.cpp:263-332 | whatever parses without error has strings without quotes, word keys and lengths that fit an int |
| TcsMessage.CleanThenTail | qunchuang/msg.cpp:263-332 | a clean message in front of any tail comes back, and the parser stops at the tail |
| TcsMessage.RoundTripIff | qunchuang/msg.cpp:336-345 | printing and parsing gives a message back without error if and only if it is clean |
| TcsMessage.TelegramRoundTripIff | qunchuang/msg.cpp:347-384 | a printed request comes back if and only if its numbers are not negative and its message is clean |
| TcsMessage.SerializedNumbers | qunchuang/qunchuangtcsconnection.cpp:66-70 | the numbers in front of a printed request are read back and the message starts behind them |
| TcsMessage.MsgParser.GetNextToken | qunchuang/msg.cpp:232-238 | the next character that is no space, or the error at the end |
| TcsMessage.MsgParser.ParseInt | qunchuang/msg.cpp:240-251 | the number in brackets and the position behind it, or the error |
| TcsMessage.MsgParser.ReadMsg | qunchuang/msg.cpp:263-332 | the object's position, error and result are those of the parsing function |
| TcsMessage.MsgParser.ReadArray | qunchuang/msg.cpp:319-329 | the same for an array and its loop |
| TcsMessage.MsgParser.ReadObject | qunchuang/msg.cpp:283-317 | the same for an object |
| TcsMessage.ParseText | qunchuang/msg.cpp:336-345 | the whole text is parsed, and a rest is an error |
| TcsMessage.ReadSF | qunchuang/msg.cpp:347-374 | the two numbers and the place behind them, or the failure |
| ModbusCrc.CheckIsZero | Dongyao/charge/chargemachine.cpp:200-216 | a frame is accepted if and only if the CRC over the whole frame is 0 |
| ModbusCrc.SentFramesPass | Dongyao/charge/chargemachine.cpp:181-198 | every frame that is sent passes the check |
| ModbusCrc.TwoByteErrorsDetected | Dongyao/charge/chargemachine.cpp:42-67 | a corruption confined to two adjacent bytes of a frame of any length is rejected |
| ModbusCrc.BurstsDetected | Dongyao/charge/chargemachine.cpp:42-67 | a burst of up to 16 bits anywhere in a frame of any length, also across three bytes, is rejected |
| ModbusCrc.CrcParity | Dongyao/charge/chargemachine.cpp:42-67 | the parity of the register is the parity of the data |
| ModbusCrc.OddErrorsDetected | Dongyao/charge/chargemachine.cpp:200-216 | a frame with an odd number of set bits is rejected |
| ModbusCrc.ModbusCrc16 | Dongyao/charge/chargemachine.cpp:42-67 | the register loop computes the CRC |
| ModbusCrc.ExampleFrame | Dongyao/charge/chargemachine.cpp:42-67 | the example of the MODBUS over Serial Line specification: 02 07 travels as 02 07 41 12 |
| ModbusCrc.BuildCommand | Dongyao/charge/chargemachine.cpp:181-198 | the data followed by its CRC, low byte first, which passes the check and has CRC 0 |
| ModbusCrc.CheckFrame | Dongyao/charge/chargemachine.cpp:200-216 | true if and only if the last two bytes are the CRC of the others |
| ChargeFraming.DrainInTwo | Dongyao/charge/chargemachine.cpp:292-351 | draining early does not change what comes out later |
| ChargeFraming.ReadsAreOneDrain | Dongyao/charge/chargemachine.cpp:292-351 | any sequence of reads yields what one read of the whole stream yields |
| ChargeFraming.ChunkingIndependent | Dongyao/charge/chargemachine.cpp:292-351 | two ways to cut a stream into reads give the same frames and the same rest |
| ChargeFraming.FramesComeOut | Dongyao/charge/chargemachine.cpp:292-351 | a stream of well-formed frames comes apart into exactly those frames |
| ChargeFraming.NothingLost | Dongyao/charge/chargemachine.cpp:292-351 | the frames taken off and the rest are the stream |
| ChargeFraming.MessageComesOff | Dongyao/charge/chargemachine.cpp:292-351 | an address, a code, the length of the payload, the payload and two check bytes in front of any tail: exactly these bytes come off, then what the tail yields; and which event it is, from the check bytes, the code and the length of the payload |
| ChargeFraming.MessagesComeOff | Dongyao/charge/chargemachine.cpp:292-351 | any such messages and the beginning of another one: they all come off in order and the beginning stays |
| ChargeFraming.MessagesInReads | Dongyao/charge/chargemachine.cpp:292-351 | the same however the stream is cut into reads |
| ChargeFraming.FrameLength | Dongyao/charge/chargemachine.cpp:296-303 | each round removes between 5 and 260 bytes; `MessageComesOff` says which |
| ChargeFraming.QyhBuffer.Append | qyhbuffer.cpp:86-91 | the bytes go to the end of the buffer |
| ChargeFraming.QyhBuffer.RemoveFront | qyhbuffer.cpp:117-126 | the first bytes are removed, all of them when more are asked for |
| ChargeFraming.QyhBuffer.Find | qyhbuffer.cpp:42-53 | the first place of the byte at or behind the start, or -1 |
| ChargeFraming.ChargeMachine.OnRead | Dongyao/charge/chargemachine.cpp:292-351 | the buffer and the events are those of draining the old buffer continued with the read: when that is any messages and the beginning of another one, the log goes on with what becomes of each message and the beginning stays in the buffer |
| Base64.CharsBack | base64.cpp:90-109 | every character that is written is in the alphabet and is read back as the sextet it was written for |
| Base64.BitsBack | base64.cpp:141-164 | three bytes cut into four sextets are put together again |
| Base64.TablesAreAlphabet | base64.cpp:90-176 | the tables hold the letters, digits and signs in the order of RFC 4648 |
| Base64.SextetsAreBytes | base64.cpp:179-209 | four sextets read as one number, highest first, are the three bytes read as one number; one and two bytes likewise |
| Base64.TestVectors | base64.cpp:179-209 | "f", "fo" and "foobar" are written as in section 10 of RFC 4648 |
| Base64.ValidEncoded | base64.cpp:133-136 | the scan over the alphabet stops exactly at the padding or the terminator |
| Base64.RoundTrip | base64.cpp:126-209 | decoding an encoding gives every byte string back, whatever follows the terminator |
| Base64.ExactLength | base64.cpp:133-168 | the length returned for an encoding is the length of what was encoded |
| Base64.Encode | base64.cpp:179-209 | exactly `Base64encode_len` bytes are written: the encoding and its terminator |
| Base64.Decode | base64.cpp:126-169 | the decoded bytes and a terminator are written and nothing behind them, also when both buffers are the same one |
| Base64.DecodeLen | base64.cpp:111-124 | the announced length: enough for the decoded bytes and their terminator, and at most three more |
| Base64.Lengths | base64.cpp:135-168 | the returned number is the number of decoded bytes |
| Elevators.SplitIsRouteIff | Dongyao/dyforklift.cpp:948-1165 | for a connected route that drives no line twice the five parts put together are the route if and only if the line behind the first entry is a ride (or there is at most one), or, from inside, the first line is a ride and no elevator is entered again |
| Elevators.SplitIsRouteIf | Dongyao/dyforklift.cpp:948-1165 | the same condition is enough for every connected route, also one that drives lines twice |
| Elevators.PlannedIsConnected | mapmap/mapmanager.cpp:950-1163 | a planned route is connected, and drives no line twice when its lines have positive length |
| Elevators.EntersIs | Dongyao/dyforklift.cpp:916-946 | a line makes the elevator necessary exactly when its end is a point at which the map changes |
| Elevators.LegIs | Dongyao/dyforklift.cpp:948-985 | a line leaves or enters an elevator where its start or its end is a point at which the map changes |
| Elevators.ToElevatorIs | Dongyao/dyforklift.cpp:948-985 | the first part is what is before the first line that enters an elevator station |
| Elevators.EnterElevatorIs | Dongyao/dyforklift.cpp:1082-1123 | the entry is the first line from outside into an elevator, and is missing only when there is none |
| Elevators.RideIs | Dongyao/dyforklift.cpp:987-1080 | the ride is the first run of lines between elevator stations, and the last part is what is behind the line that follows it |
| Elevators.OutElevatorIs | Dongyao/dyforklift.cpp:1125-1165 | the exit is the first line out of an elevator, and is missing only when there is none |
| Elevators.RideIf | Dongyao/dyforklift.cpp:987-1080 | ride, exit and rest make up every connected route from an elevator station that has at most one line or starts with a ride |
| Elevators.RideIff | Dongyao/dyforklift.cpp:987-1080 | from an elevator station, for a route that drives no line twice, the three parts behind the entry make it up if and only if it has at most one line or starts with a ride |
| Elevators.NoRideIff | Dongyao/dyforklift.cpp:1036-1080 | there is a ride to take if and only if some line runs between elevator stations |
| Elevators.IsNeedTakeElevator | Dongyao/dyforklift.cpp:916-946 | true if and only if some line enters an elevator station |
| Elevators.GetPathToElevator | Dongyao/dyforklift.cpp:948-985 | the loop computes the first part |
| Elevators.GetPathEnterElevator | Dongyao/dyforklift.cpp:1082-1123 | the loop computes the entry |
| Elevators.GetPathInElevator | Dongyao/dyforklift.cpp:1036-1080 | the loop computes the ride |
| Elevators.GetPathOutElevator | Dongyao/dyforklift.cpp:1125-1165 | the loop computes the exit |
| Elevators.GetPathLeaveElevator | Dongyao/dyforklift.cpp:987-1034 | the loop with its two flags computes the rest |
| Elevators.GoSameFloorPath | Dongyao/dyforklift.cpp:451-492 | the commands join to the lines, and a new one starts exactly where a line is driven against the first line of the batch |
| Elevators.BatchesUnique | Dongyao/dyforklift.cpp:451-492 | there is only one way to cut the lines so |
| Elevators.BatchesAreMaximalRuns | Dongyao/dyforklift.cpp:451-492 | without zero speeds the batches are the maximal runs of one direction |
| Elevators.ZeroTakesAll | Dongyao/dyforklift.cpp:469-483 | a first line of speed zero takes all lines into one batch |
| Elevators.MixedOnlyAfterZero | Dongyao/dyforklift.cpp:469-483 | only a batch that starts with speed zero holds lines of both directions |
| Findings.PassingRewritesGroup | agv.cpp:110-146 | two dispatches after which the records are right, and an arrival after which they are wrong |
| Findings.DetourReservesElsewhere | taskmanager.cpp:157-208 | two vehicles whose nearest halt points differ, the first one's being free for the second |
| Findings.LooksAtOtherLine | agv.cpp:160-187 | a planned route over the shorter of two parallel lines, whose block is occupied: the vehicle looks at the other line and sees nothing in its way |
| Findings.CancelFreesServing | taskmanager.cpp:505-566 | a run in which cancelling a task sets a vehicle idle in the middle of another |
| Findings.FinishFreesServing | taskmanager.cpp:53-72 | a run in which a task without nodes does the same when it is finished |
| Findings.CancelledThreadRuns | taskmanager.cpp:505-566 | a run of careful steps that ends with two threads on one vehicle |

## Left out

- Sockets, WebSocket sessions, threads, sleeps, reconnects, SQL persistence, JSON request handlers, users, logs and task makers: input, output and glue.
- Reservations written by `setPosition`, by reconnect handling and by `addOccuGroup`: they bypass the planner, so the runs of `Traffic.dfy` do not contain them.
- Geometry, motion simulation and robot command strings.
- Elevator handshakes and packets; the forklift's `goElevator` throws when there is no ride to take, which `Elevators.NoRideIff` characterises, and is not modelled further.
- The things a node does between arriving and completing, and whether one of them fails: a node counts as executed when its thread ends. An exception in the thread leaves the task on the executing list, which is the run without that completion.
- The class of vehicle is the simulated one (`virtualrosagv.cpp`): it becomes busy when a task starts and marks its task when asked to cancel; other classes override these calls.
- Task objects and vehicles are records in maps by id instead of shared pointers; a task keeps its identity through its id.
- The filtered and the unfiltered search are two copies of one loop; the model has it once, with a flag. A stale adjacency id, which the unfiltered copy would dereference as null, cannot occur on a loaded map.
- RoadRules.NoShorterTrip: nothing but lines of the map is held as a line, which the reservations of every run keep (`Traffic.TypedMeansLines`); an id that is no line would block the lines whose row in the reverse relation still names it.
- Vehicles.LooksAhead: the route has positive lengths and is a shortest one; for any list of stations `Vehicles.Agv.CheckAhead` says which line is looked at.
- Default entries that `operator[]` inserts into the reservation tables: a missing entry reads as 0 or as an empty list.
- MapManagers.MapManager.GetNearestHaltStation: the test of the halt groups is not modelled, because its `continue` belongs to the loop over the groups and has no effect.
- Blocks.BlockManager.TryAddBlockOccu: the test and the entry are two critical sections in the source and one step here; `Blocks.ExclusiveIffFreeAtEntry` says exactly what holds when they are two.
- The assignment operators of the block classes, which do not copy their vectors and are never used.
- `MapManager::clear`, which empties the station and line tables but not the group records.
- Tasks.AlwaysOneTaskPerVehicle: is about careful runs; `Tasks.OneTaskIff` says for all runs exactly when it holds.
- TaskTrace.DoneMeansExecuted: does not cover tasks that were sent on a detour, since the halt node stays in their list for later rounds; `TaskTrace.DetourThenComplete` says what a detour executes.
- TcsMessage.ParseMsg: reading behind the terminator of the text, which the source does after some errors, reads zero bytes here.
- Vehicles.DispatchedRun: lines have positive length; for any route `Vehicles.ArrivalAtGoal` says exactly when the goal survives the arrival.
- Traffic.GroupsAlwaysSound: is about releases by owners; `Traffic.GroupsSoundIffOwned` says that nothing less will do, and `Vehicles.ArrivalSoundIff` when an arrival makes only such releases.
- TcsMessage.ParseTelegram: leaves the message open when the numbers are malformed, because the source then parses from one byte before the text.
- Base64.Encode: lengths are unbounded here; in the source the length computation overflows near the largest int.
- Base64.Decode: shifts and masks are written as division, remainder and sum of disjoint fields.
- Vendored libraries and everything in `CppSQLite3` that calls SQLite.
