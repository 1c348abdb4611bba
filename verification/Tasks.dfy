/** The life cycle of tasks, as steps over one state.

    A task waits in the queue of its priority, is executed one node at a time, goes back to its queue
    after every node, and ends as done or cancelled.  While it is under way one vehicle serves it. */
module Tasks {
  import opened Wrappers

  /** The fields of `AgvTask` that steer it.  `loops` remembers the number of rounds it was submitted
      with and `detoured` whether a node was put in front of it; nothing depends on either. */
  datatype Task = Task(priority: int, nodes: seq<int>, agv: int, index: nat, runTimes: int, cancelled: bool,
                       path: seq<int>, loops: int, detoured: bool)

  /** A vehicle: whether its status is idle, the task it serves (0 for none), and where it is. */
  datatype Vehicle = Vehicle(idle: bool, task: int, last: int, now: int, next: int)

  /** Tasks and vehicles by id, the three lists of the manager, and what is only there to talk about
      runs: the cancelled tasks, the tasks whose thread is running, and the nodes each task executed. */
  datatype State = State(tasks: map<int, Task>, vehicles: map<int, Vehicle>, queues: map<int, seq<int>>,
                         doing: seq<int>, done: seq<int>, gone: seq<int>, running: set<int>, log: map<int, seq<int>>)

  function QueueOf(queues: map<int, seq<int>>, p: int): seq<int> {
    if p in queues then queues[p] else []
  }

  /** Waiting in the queue of its own priority. */
  predicate Queued(s: State, id: int) {
    id in s.tasks && id in QueueOf(s.queues, s.tasks[id].priority)
  }

  predicate Live(s: State, id: int) {
    Queued(s, id) || id in s.doing
  }

  function Enqueue(s: State, id: int): State
    requires id in s.tasks
  {
    var p := s.tasks[id].priority;
    s.(queues := s.queues[p := QueueOf(s.queues, p) + [id]])
  }

  /** The task leaves whatever queue it is in. */
  function Unqueue(queues: map<int, seq<int>>, id: int): map<int, seq<int>> {
    map p | p in queues :: RemoveAll(queues[p], id)
  }

  function LogOf(s: State, id: int): seq<int> {
    if id in s.log then s.log[id] else []
  }

  // ---------------------------------------------------------------- the operations as functions

  /** `excuteTask`: onto the list of executing tasks, and a thread for its node. */
  function Execute(s: State, id: int): State {
    s.(doing := s.doing + [id], running := s.running + {id}, log := s.log[id := LogOf(s, id)])
  }

  /** `push_frontNode` for a detour. */
  function Detour(t: Task, halt: Option<int>): Task {
    match halt
    case Some(h) => t.(nodes := [h] + t.nodes, detoured := true)
    case None => t
  }

  /** The vehicle takes the task and the node is executed. */
  function StartOn(s: State, id: int, v: int, path: seq<int>, halt: Option<int>): State
    requires id in s.tasks && v in s.vehicles
  {
    Execute(s.(tasks := s.tasks[id := Detour(s.tasks[id], halt).(agv := v, path := path)],
               vehicles := s.vehicles[v := s.vehicles[v].(task := id, idle := false)]), id)
  }

  /** The vehicle the task names, when there is one, is set free. */
  function FreeVehicle(vehicles: map<int, Vehicle>, v: int): map<int, Vehicle> {
    if v in vehicles then vehicles[v := vehicles[v].(task := 0, idle := true)] else vehicles
  }

  /** `finishTask`. */
  function FinishTask(s: State, id: int): State
    requires id in s.tasks
  {
    s.(vehicles := FreeVehicle(s.vehicles, s.tasks[id].agv), done := s.done + [id])
  }

  /** The next round. */
  function WrapTask(s: State, id: int): State
    requires id in s.tasks
  {
    s.(tasks := s.tasks[id := s.tasks[id].(index := 0, runTimes := s.tasks[id].runTimes - 1)])
  }

  /** The end of the thread: the node counts as executed, and the task goes back to its queue unless
      it was cancelled. */
  function CompleteNode(s: State, id: int): State
    requires id in s.tasks
  {
    var t := s.tasks[id];
    var s1 := s.(running := s.running - {id});
    var back := s1.(doing := RemoveAll(s.doing, id));
    if t.index >= |t.nodes| then Enqueue(back, id)
    else
      var tasks := s.tasks[id := t.(path := [], index := t.index + 1)];
      var log := s.log[id := LogOf(s, id) + [t.nodes[t.index]]];
      if t.cancelled then s1.(tasks := tasks, log := log) else Enqueue(back.(tasks := tasks, log := log), id)
  }

  /** A vehicle asked to cancel marks the task it serves. */
  function Mark(tasks: map<int, Task>, id: int): map<int, Task> {
    if id in tasks then tasks[id := tasks[id].(cancelled := true)] else tasks
  }

  /** `cancelTask` for a task that was found. */
  function CancelLive(s: State, id: int): State
    requires id in s.tasks
  {
    var v := s.tasks[id].agv;
    var tasks := Mark(s.tasks, id);
    s.(queues := Unqueue(s.queues, id),
       doing := if Queued(s, id) then s.doing else RemoveAll(s.doing, id),
       tasks := if v in s.vehicles then Mark(tasks, s.vehicles[v].task) else tasks,
       vehicles := FreeVehicle(s.vehicles, v),
       gone := s.gone + [id])
  }

  // ---------------------------------------------------------------- steps

  datatype Step =
    | Submit(id: int, task: Task)
    | Start(id: int, v: int, path: seq<int>, halt: Option<int>)
    | Resume(id: int)
    | Wrap(id: int)
    | Finish(id: int)
    | Complete(id: int)
    | Cancel(id: int)
    | Abandon(v: int)
    | Report(v: int, vehicle: Vehicle)

  /** What the dispatcher checks before it gives the task to the vehicle: the vehicle the task names
      must serve it or be idle; a task that names no vehicle needs an idle one. */
  predicate MayServe(s: State, id: int, v: int)
    requires id in s.tasks
  {
    && v in s.vehicles
    && if s.tasks[id].agv in s.vehicles
       then v == s.tasks[id].agv && (s.vehicles[v].task == id || s.vehicles[v].idle)
       else s.vehicles[v].idle
  }

  predicate Enabled(s: State, step: Step) {
    match step
    case Submit(id, t) =>
      id > 0 && id !in s.tasks && t.index == 0 && !t.cancelled && !t.detoured && t.loops == t.runTimes
    case Start(id, v, path, halt) =>
      Queued(s, id) && HasNode(s, id) && MayServe(s, id, v)
    case Resume(id) =>
      && Queued(s, id) && HasNode(s, id)
      && s.tasks[id].agv in s.vehicles && s.vehicles[s.tasks[id].agv].task == id
    case Wrap(id) => Queued(s, id) && !HasNode(s, id) && s.tasks[id].runTimes > 1
    case Finish(id) => Queued(s, id) && !HasNode(s, id) && s.tasks[id].runTimes <= 1
    case Complete(id) => id in s.running && id in s.tasks
    case Cancel(id) => true
    case Abandon(v) => v in s.vehicles && s.vehicles[v].task in s.running
    case Report(v, u) =>
      v in s.vehicles && u.task == s.vehicles[v].task && (u.idle ==> s.vehicles[v].task == 0 || s.vehicles[v].idle)
  }

  function Apply(s: State, step: Step): State
    requires Enabled(s, step)
  {
    match step
    case Submit(id, t) => Enqueue(s.(tasks := s.tasks[id := t]), id)
    case Start(id, v, path, halt) => StartOn(s.(queues := Unqueue(s.queues, id)), id, v, path, halt)
    case Resume(id) => Execute(s.(queues := Unqueue(s.queues, id)), id)
    case Wrap(id) => WrapTask(s, id)
    case Finish(id) => FinishTask(s.(queues := Unqueue(s.queues, id)), id)
    case Complete(id) => CompleteNode(s, id)
    case Cancel(id) => if Live(s, id) && id in s.tasks then CancelLive(s, id) else s
    case Abandon(v) => s.(tasks := Mark(s.tasks, s.vehicles[v].task))
    case Report(v, u) => s.(vehicles := s.vehicles[v := u])
  }

  ghost predicate IsRun(states: seq<State>, steps: seq<Step>) {
    && |states| == |steps| + 1
    && forall i :: 0 <= i < |steps| ==> Enabled(states[i], steps[i]) && states[i + 1] == Apply(states[i], steps[i])
  }

  // ---------------------------------------------------------------- conservation

  predicate NoDup(s: seq<int>) {
    forall i, j :: 0 <= i < j < |s| ==> s[i] != s[j]
  }

  /** Queues hold tasks of their own priority, each once, and nothing that is elsewhere. */
  ghost predicate QueuesTidy(s: State) {
    && (forall p :: p in s.queues ==> NoDup(s.queues[p]))
    && forall p, id :: id in QueueOf(s.queues, p) ==>
         && id in s.tasks && s.tasks[id].priority == p
         && id !in s.doing && id !in s.done && id !in s.gone && id !in s.running
  }

  /** The other lists have no task twice and no task in common. */
  ghost predicate ListsTidy(s: State) {
    && 0 !in s.tasks
    && NoDup(s.doing) && NoDup(s.done) && NoDup(s.gone)
    && (forall id :: id in s.doing ==> id in s.tasks && id !in s.done && id !in s.gone)
    && (forall id :: id in s.done ==> id in s.tasks && id !in s.gone && id !in s.running)
    && (forall id :: id in s.gone ==> id in s.tasks && s.tasks[id].cancelled)
    && (forall id :: id in s.running ==> (id in s.doing || id in s.gone) && HasNode(s, id))
  }

  /** The index of the task is the index of one of its nodes. */
  predicate HasNode(s: State, id: int) {
    id in s.tasks && s.tasks[id].index < |s.tasks[id].nodes|
  }

  /** Nobody is lost, except possibly one. */
  ghost predicate Kept(s: State, except: int) {
    forall id :: id in s.tasks && id != except ==> Queued(s, id) || id in s.doing || id in s.done || id in s.gone
  }

  /** Every known task is in exactly one place: once in the queue of its own priority, once on the
      list of executing tasks, done, or cancelled. */
  ghost predicate Placed(s: State) {
    QueuesTidy(s) && ListsTidy(s) && Kept(s, 0)
  }

  lemma NoDupAppend(s: seq<int>, x: int)
    requires NoDup(s) && x !in s
    ensures NoDup(s + [x])
  {}

  lemma {:induction false} NoDupRemove(s: seq<int>, x: int)
    requires NoDup(s)
    ensures NoDup(RemoveAll(s, x))
  {
    if s != [] {
      var rest, last := s[..|s| - 1], s[|s| - 1];
      NoDupRemove(rest, x);
      assert last !in rest;
      NoDupAppend(RemoveAll(rest, x), last);
    }
  }

  lemma UnqueueKeeps(queues: map<int, seq<int>>, id: int)
    requires forall p :: p in queues ==> NoDup(queues[p])
    ensures var r := Unqueue(queues, id);
      && (forall p :: p in r ==> NoDup(r[p]))
      && (forall p :: p in r <==> p in queues)
      && (forall p, x :: p in r && x in r[p] <==> p in queues && x in queues[p] && x != id)
      && (forall p, x :: x in QueueOf(r, p) <==> x in QueueOf(queues, p) && x != id)
  {
    var r := Unqueue(queues, id);
    forall p | p in queues ensures NoDup(r[p]) && r[p] == RemoveAll(queues[p], id) {
      NoDupRemove(queues[p], id);
    }
    forall p, x ensures x in QueueOf(r, p) <==> x in QueueOf(queues, p) && x != id {
      assert p in queues ==> QueueOf(r, p) == RemoveAll(queues[p], id);
    }
  }

  lemma EnqueuePlaced(s: State, id: int)
    requires QueuesTidy(s) && ListsTidy(s) && Kept(s, id)
    requires id in s.tasks && id !in s.doing && id !in s.done && id !in s.gone && id !in s.running
    requires !Queued(s, id)
    ensures Placed(Enqueue(s, id))
  {
    var p := s.tasks[id].priority;
    var s' := Enqueue(s, id);
    NoDupAppend(QueueOf(s.queues, p), id);
    assert forall q, x :: x in QueueOf(s'.queues, q) <==> x in QueueOf(s.queues, q) || (q == p && x == id);
    assert QueuesTidy(s') by { hide QueueOf; }
    assert ListsTidy(s') by { hide QueueOf; }
    assert Kept(s', 0) by { hide QueueOf; }
  }

  lemma SubmitPlaced(s: State, id: int, t: Task)
    requires Placed(s) && Enabled(s, Submit(id, t))
    ensures Placed(Apply(s, Submit(id, t)))
  {
    hide QueueOf, NoDup;
    var s1 := s.(tasks := s.tasks[id := t]);
    assert id !in QueueOf(s.queues, t.priority);
    assert QueuesTidy(s1) && ListsTidy(s1) && Kept(s1, id);
    EnqueuePlaced(s1, id);
  }

  /** A task taken out of its queue is nowhere. */
  lemma UnqueuePlaced(s: State, id: int, s1: State)
    requires Placed(s) && Queued(s, id) && s1 == s.(queues := Unqueue(s.queues, id))
    ensures QueuesTidy(s1) && ListsTidy(s1) && Kept(s1, id) && !Queued(s1, id)
    ensures id in s1.tasks && id !in s1.doing && id !in s1.done && id !in s1.gone && id !in s1.running
  {
    hide QueueOf, NoDup, Unqueue;
    UnqueueKeeps(s.queues, id);
  }

  /** The fields of a task that do not say where it is may change. */
  predicate SamePlaces(s: State, s': State) {
    && s'.queues == s.queues && s'.doing == s.doing && s'.done == s.done && s'.gone == s.gone
    && s'.running == s.running && s'.tasks.Keys == s.tasks.Keys
    && forall id :: id in s.tasks ==> s'.tasks[id].priority == s.tasks[id].priority
                                      && (s.tasks[id].cancelled ==> s'.tasks[id].cancelled)
                                      && (id in s.running && HasNode(s, id) ==> HasNode(s', id))
  }

  lemma SamePlacesKept(s: State, s': State, id: int)
    requires SamePlaces(s, s') && QueuesTidy(s) && ListsTidy(s) && Kept(s, id)
    ensures QueuesTidy(s') && ListsTidy(s') && Kept(s', id)
    ensures forall x :: Queued(s', x) <==> Queued(s, x)
  {
    hide QueueOf, NoDup;
  }

  lemma ExecutePlaced(s: State, id: int)
    requires QueuesTidy(s) && ListsTidy(s) && Kept(s, id) && !Queued(s, id)
    requires HasNode(s, id) && id !in s.doing && id !in s.done && id !in s.gone && id !in s.running
    ensures Placed(Execute(s, id))
  {
    hide QueueOf;
    NoDupAppend(s.doing, id);
    var s' := Execute(s, id);
    assert forall x :: x in s'.doing <==> x in s.doing || x == id;
    hide NoDup;
    assert QueuesTidy(s');
    assert ListsTidy(s');
    assert Kept(s', 0);
  }

  lemma StartPlaced(s: State, id: int, v: int, path: seq<int>, halt: Option<int>)
    requires Placed(s) && Enabled(s, Start(id, v, path, halt))
    ensures Placed(Apply(s, Start(id, v, path, halt)))
  {
    hide QueuesTidy, ListsTidy, Kept, Execute, Unqueue, Queued;
    var s1 := s.(queues := Unqueue(s.queues, id));
    UnqueuePlaced(s, id, s1);
    assert HasNode(s1, id);
    var s2 := s1.(tasks := s.tasks[id := Detour(s.tasks[id], halt).(agv := v, path := path)],
                  vehicles := s.vehicles[v := s.vehicles[v].(task := id, idle := false)]);
    SamePlacesKept(s1, s2, id);
    ExecutePlaced(s2, id);
  }

  lemma ResumePlaced(s: State, id: int)
    requires Placed(s) && Enabled(s, Resume(id))
    ensures Placed(Apply(s, Resume(id)))
  {
    hide QueuesTidy, ListsTidy, Kept, Execute, Unqueue, Queued;
    var s1 := s.(queues := Unqueue(s.queues, id));
    UnqueuePlaced(s, id, s1);
    ExecutePlaced(s1, id);
  }

  lemma FinishPlaced(s: State, id: int)
    requires Placed(s) && Enabled(s, Finish(id))
    ensures Placed(Apply(s, Finish(id)))
  {
    hide Unqueue;
    var s1 := s.(queues := Unqueue(s.queues, id));
    UnqueuePlaced(s, id, s1);
    var s' := Apply(s, Finish(id));
    assert s' == FinishTask(s1, id);
    DonePlaced(s1, id, s');
  }

  lemma DonePlaced(s: State, id: int, s': State)
    requires QueuesTidy(s) && ListsTidy(s) && Kept(s, id) && !Queued(s, id)
    requires id in s.tasks && id !in s.doing && id !in s.done && id !in s.gone && id !in s.running
    requires s' == s.(vehicles := s'.vehicles, done := s.done + [id])
    ensures Placed(s')
  {
    hide QueueOf;
    NoDupAppend(s.done, id);
    assert forall x :: x in s'.done <==> x in s.done || x == id;
    hide NoDup;
    assert QueuesTidy(s');
    assert ListsTidy(s');
    assert Kept(s', 0);
  }

  /** A task taken off the list of executing tasks is nowhere. */
  lemma LeavesDoing(s: State, id: int, s1: State)
    requires Placed(s) && id in s.doing
    requires s1 == s.(doing := RemoveAll(s.doing, id), running := s.running - {id})
    ensures QueuesTidy(s1) && ListsTidy(s1) && Kept(s1, id) && !Queued(s1, id)
    ensures id in s1.tasks && id !in s1.doing && id !in s1.done && id !in s1.gone && id !in s1.running
  {
    hide QueueOf, NoDup;
    NoDupRemove(s.doing, id);
    assert QueuesTidy(s1);
    assert ListsTidy(s1);
    assert Kept(s1, id);
  }

  lemma StopsRunning(s: State, id: int, s': State)
    requires Placed(s) && s' == s.(running := s.running - {id})
    ensures Placed(s')
  {
    hide QueueOf, NoDup;
  }

  lemma CompletePlaced(s: State, id: int)
    requires Placed(s) && Enabled(s, Complete(id))
    ensures Placed(Apply(s, Complete(id)))
  {
    hide RemoveAll, Enqueue, NoDup, Kept, QueuesTidy;
    var t := s.tasks[id];
    var s1 := s.(running := s.running - {id});
    var back := s1.(doing := RemoveAll(s.doing, id));
    assert HasNode(s, id);
    if t.cancelled {
      StopsRunning(s, id, s1);
      SamePlacesKept(s1, Apply(s, Complete(id)), 0);
    } else {
      assert id in s.doing;
      LeavesDoing(s, id, back);
      var s2 := back.(tasks := s.tasks[id := t.(path := [], index := t.index + 1)],
                      log := s.log[id := LogOf(s, id) + [t.nodes[t.index]]]);
      SamePlacesKept(back, s2, id);
      EnqueuePlaced(s2, id);
    }
  }

  /** A cancelled task loses its place and is marked. */
  lemma CancelPlaced(s: State, id: int)
    requires Placed(s) && Live(s, id) && id in s.tasks
    ensures Placed(CancelLive(s, id))
  {
    hide RemoveAll, Mark, NoDup, Kept, QueuesTidy, ListsTidy, Unqueue;
    var v := s.tasks[id].agv;
    var s' := CancelLive(s, id);
    var s1 := s.(queues := Unqueue(s.queues, id), doing := if Queued(s, id) then s.doing else RemoveAll(s.doing, id));
    TakenOut(s, id, s1);
    var s2 := s1.(gone := s.gone + [id], tasks := s'.tasks, vehicles := s'.vehicles);
    MarkKeeps(s.tasks, id);
    MarkKeeps(Mark(s.tasks, id), if v in s.vehicles then s.vehicles[v].task else 0);
    GonePlaced(s1, id, s2);
    assert s2 == s';
  }

  lemma MarkKeeps(tasks: map<int, Task>, id: int)
    ensures var r := Mark(tasks, id);
      && r.Keys == tasks.Keys
      && (id in tasks ==> r[id].cancelled)
      && forall x :: x in tasks ==> && r[x].priority == tasks[x].priority && (tasks[x].cancelled ==> r[x].cancelled)
                                    && r[x].index == tasks[x].index && r[x].nodes == tasks[x].nodes
                                    && r[x].agv == tasks[x].agv
  {}

  /** Out of the queues and, when it was in none, off the list of executing tasks. */
  ghost predicate Out(s: State, id: int, s1: State) {
    && (forall x :: x in s1.running ==> (x in s1.doing || x in s1.gone || x == id) && HasNode(s1, x))
    && id in s1.tasks && id !in s1.doing && id !in s1.done && id !in s1.gone && !Queued(s1, id)
    && QueuesTidy(s1) && Kept(s1, id) && ListsTidy(s1.(running := {}))
  }

  lemma TakenOut(s: State, id: int, s1: State)
    requires Placed(s) && Live(s, id) && id in s.tasks
    requires s1 == s.(queues := Unqueue(s.queues, id),
                      doing := if Queued(s, id) then s.doing else RemoveAll(s.doing, id))
    ensures Out(s, id, s1)
  {
    OutOfQueues(s, id, s1);
    OutOfLists(s, id, s1);
    hide QueuesTidy, ListsTidy, Kept, HasNode, Queued, Unqueue, RemoveAll;
  }

  lemma OutOfQueues(s: State, id: int, s1: State)
    requires Placed(s) && id in s.tasks
    requires s1 == s.(queues := Unqueue(s.queues, id),
                      doing := if Queued(s, id) then s.doing else RemoveAll(s.doing, id))
    ensures QueuesTidy(s1) && Kept(s1, id) && !Queued(s1, id)
  {
    KnownPositive(s);
    hide QueueOf, NoDup, Unqueue, RemoveAll, ListsTidy;
    UnqueueKeeps(s.queues, id);
    assert forall x :: x in s1.doing <==> x in s.doing && x != id by { NotIn(s, id, s1.doing); }
    assert forall p, x :: x in QueueOf(s1.queues, p) <==> x in QueueOf(s.queues, p) && x != id;
  }

  lemma OutOfLists(s: State, id: int, s1: State)
    requires Placed(s) && Live(s, id) && id in s.tasks
    requires s1 == s.(queues := Unqueue(s.queues, id),
                      doing := if Queued(s, id) then s.doing else RemoveAll(s.doing, id))
    ensures ListsTidy(s1.(running := {}))
    ensures id in s1.tasks && id !in s1.doing && id !in s1.done && id !in s1.gone
    ensures forall x :: x in s1.running ==> (x in s1.doing || x in s1.gone || x == id) && HasNode(s1, x)
  {
    hide QueueOf, NoDup, Unqueue, RemoveAll, Kept, HasNode;
    NoDupRemove(s.doing, id);
    assert forall x :: x in s1.doing <==> x in s.doing && x != id by { NotIn(s, id, s1.doing); }
    SameNodes(s, s1);
  }

  lemma NotIn(s: State, id: int, doing: seq<int>)
    requires Placed(s) && doing == if Queued(s, id) then s.doing else RemoveAll(s.doing, id)
    ensures forall x :: x in doing <==> x in s.doing && x != id
  {
    hide ListsTidy, Kept, NoDup;
  }

  lemma SameNodes(s: State, s1: State)
    requires s1.tasks == s.tasks
    ensures forall x :: HasNode(s1, x) <==> HasNode(s, x)
  {}

  lemma GonePlaced(s: State, id: int, s': State)
    requires Out(s, id, s)
    requires s' == s.(gone := s.gone + [id], tasks := s'.tasks, vehicles := s'.vehicles)
    requires s'.tasks.Keys == s.tasks.Keys && s'.tasks[id].cancelled
    requires forall x :: x in s.tasks ==>
               && s'.tasks[x].priority == s.tasks[x].priority && (s.tasks[x].cancelled ==> s'.tasks[x].cancelled)
               && s'.tasks[x].index == s.tasks[x].index && s'.tasks[x].nodes == s.tasks[x].nodes
    ensures Placed(s')
  {
    hide QueueOf;
    NoDupAppend(s.gone, id);
    assert forall x :: x in s'.gone <==> x in s.gone || x == id;
    hide NoDup;
    assert QueuesTidy(s');
    assert ListsTidy(s');
    assert Kept(s', 0);
  }

  /** Conservation: in every run every submitted task stays in exactly one place. */
  lemma PlacedKept(s: State, step: Step)
    requires Placed(s) && Enabled(s, step)
    ensures Placed(Apply(s, step))
  {
    hide Placed, Queued, Execute, Unqueue, CompleteNode, FinishTask, StartOn, CancelLive;
    match step
    case Submit(id, t) => SubmitPlaced(s, id, t);
    case Start(id, v, path, halt) => StartPlaced(s, id, v, path, halt);
    case Resume(id) => ResumePlaced(s, id);
    case Wrap(id) => WrapPlaced(s, id);
    case Finish(id) => FinishPlaced(s, id);
    case Complete(id) => CompletePlaced(s, id);
    case Cancel(id) => if Live(s, id) && id in s.tasks { CancelPlaced(s, id); }
    case Abandon(v) => MarkPlaced(s, s.vehicles[v].task, Apply(s, step));
    case Report(v, u) => ReportPlaced(s, Apply(s, step));
  }

  lemma WrapPlaced(s: State, id: int)
    requires Placed(s) && Enabled(s, Wrap(id))
    ensures Placed(WrapTask(s, id))
  {
    hide QueueOf, NoDup;
    assert id !in s.running;
    SamePlacesKept(s, WrapTask(s, id), 0);
  }

  lemma MarkPlaced(s: State, id: int, s': State)
    requires Placed(s) && s' == s.(tasks := Mark(s.tasks, id))
    ensures Placed(s')
  {
    hide QueuesTidy, ListsTidy, Kept, Mark;
    MarkKeeps(s.tasks, id);
    SamePlacesKept(s, s', 0);
  }

  lemma ReportPlaced(s: State, s': State)
    requires Placed(s) && s' == s.(vehicles := s'.vehicles)
    ensures Placed(s')
  {
    hide QueuesTidy, ListsTidy, Kept;
    SamePlacesKept(s, s', 0);
  }

  // ---------------------------------------------------------------- one task per vehicle

  /** The vehicle the task names serves it and is not idle. */
  predicate Holding(s: State, id: int) {
    && id in s.tasks && s.tasks[id].agv in s.vehicles
    && s.vehicles[s.tasks[id].agv].task == id && !s.vehicles[s.tasks[id].agv].idle
  }

  /** A task is under way from its first execution until it is done or cancelled. */
  predicate UnderWay(s: State, id: int) {
    Live(s, id) && id in s.log
  }

  /** Tasks under way and busy vehicles match each other. */
  ghost predicate Held(s: State) {
    && 0 !in s.vehicles
    && (forall id :: id in s.log ==> id in s.tasks)
    && (forall id :: id in s.tasks && s.tasks[id].index > 0 ==> id in s.log)
    && (forall id :: id in s.doing || id in s.running ==> id in s.log)
    && (forall id :: UnderWay(s, id) ==> Holding(s, id))
    && (forall v :: v in s.vehicles && s.vehicles[v].task != 0 ==>
         ServesLive(s, v, s.vehicles[v].task))
  }

  /** The vehicle's task is under way and names the vehicle. */
  predicate ServesLive(s: State, v: int, id: int) {
    UnderWay(s, id) && id in s.tasks && s.tasks[id].agv == v
  }

  function AgvOf(s: State, id: int): int {
    if id in s.tasks then s.tasks[id].agv else 0
  }

  /** Two executing tasks never name the same vehicle, and a vehicle whose task has started and is
      not finished is not idle. */
  ghost predicate OneTaskPerVehicle(s: State) {
    && (forall a, b :: a in s.doing && b in s.doing && a != b ==> AgvOf(s, a) != AgvOf(s, b))
    && forall id :: UnderWay(s, id) ==> AgvOf(s, id) in s.vehicles && !s.vehicles[AgvOf(s, id)].idle
  }

  lemma HeldMeansOne(s: State)
    requires Placed(s) && Held(s)
    ensures OneTaskPerVehicle(s)
  {
    hide QueuesTidy, Kept, NoDup, Queued;
    forall a, b | a in s.doing && b in s.doing && a != b ensures AgvOf(s, a) != AgvOf(s, b) {
      assert Holding(s, a) && Holding(s, b);
    }
  }

  /** The vehicle named by the task serves this task or none. */
  predicate Clear(s: State, id: int)
    requires id in s.tasks
  {
    s.tasks[id].agv in s.vehicles ==> s.vehicles[s.tasks[id].agv].task in {0, id}
  }

  lemma SubmitHeld(s: State, id: int, t: Task)
    requires Placed(s) && Held(s) && Enabled(s, Submit(id, t))
    ensures Held(Apply(s, Submit(id, t)))
  {
    hide NoDup, Kept;
    var s' := Apply(s, Submit(id, t));
    assert id !in s.log;
    forall x | x != id ensures Queued(s', x) <==> Queued(s, x) {
      assert x in s.tasks && s.tasks[x].priority == t.priority ==>
        (x in QueueOf(s'.queues, t.priority) <==> x in QueueOf(s.queues, t.priority));
    }
    hide Queued, QueueOf, Enqueue, QueuesTidy;
    assert forall x :: UnderWay(s', x) <==> UnderWay(s, x);
  }

  /** Taking a task out of its queue and executing it leaves it live. */
  lemma ExecuteLive(s: State, id: int, s': State)
    requires Placed(s) && Queued(s, id)
    requires s'.queues == Unqueue(s.queues, id) && s'.doing == s.doing + [id]
    requires s'.tasks.Keys == s.tasks.Keys
    requires forall x :: x in s.tasks ==> s'.tasks[x].priority == s.tasks[x].priority
    ensures forall x :: Live(s', x) <==> Live(s, x)
  {
    hide NoDup, Kept, QueueOf, Unqueue, ListsTidy;
    UnqueueKeeps(s.queues, id);
    assert forall x :: x in s'.doing <==> x in s.doing || x == id;
  }

  lemma StartHeld(s: State, id: int, v: int, path: seq<int>, halt: Option<int>)
    requires Placed(s) && Held(s) && Enabled(s, Start(id, v, path, halt))
    ensures Held(Apply(s, Start(id, v, path, halt)))
  {
    hide Placed, Queued, Unqueue, Live;
    var s' := Apply(s, Start(id, v, path, halt));
    ExecuteLive(s, id, s');
    QueuedIsLive(s, id);
    assert s.vehicles[v].task in {0, id};
    KnownPositive(s);
    ExecutedHeld(s, id, v, s', s'.vehicles[v], s'.tasks[id]);
  }

  lemma QueuedIsLive(s: State, id: int)
    requires Queued(s, id)
    ensures Live(s, id)
  {}

  /** The vehicle takes over the task; everybody else keeps theirs. */
  lemma ExecutedHeld(s: State, id: int, v: int, s': State, u: Vehicle, t: Task)
    requires Held(s) && 0 !in s.tasks && id in s.tasks && v in s.vehicles && Live(s, id)
    requires s.vehicles[v].task in {0, id}
    requires s.tasks[id].agv in s.vehicles ==> v == s.tasks[id].agv
    requires forall x :: Live(s', x) <==> Live(s, x)
    requires s'.vehicles == s.vehicles[v := u] && u.task == id && !u.idle
    requires s'.tasks == s.tasks[id := t] && t.agv == v && t.index == s.tasks[id].index
    requires s'.log.Keys == s.log.Keys + {id}
    requires forall x :: x in s'.doing || x in s'.running ==> x in s.doing || x in s.running || x == id
    ensures Held(s')
  {
    hide Live;
    forall x | UnderWay(s', x) ensures Holding(s', x) {
      if x != id {
        assert UnderWay(s, x);
        assert Holding(s, x);
        assert s.tasks[x].agv != v;
      }
    }
    forall w | w in s'.vehicles && s'.vehicles[w].task != 0
      ensures ServesLive(s', w, s'.vehicles[w].task)
    {
      if w != v {
        assert UnderWay(s, s.vehicles[w].task);
      }
    }
  }

  lemma ResumeHeld(s: State, id: int)
    requires Placed(s) && Held(s) && Enabled(s, Resume(id))
    ensures Held(Apply(s, Resume(id)))
  {
    hide Placed, Queued, Unqueue, Live;
    var s' := Apply(s, Resume(id));
    ExecuteLive(s, id, s');
    QueuedIsLive(s, id);
    assert id in s.tasks by { QueuedKnown(s, id); }
    KnownPositive(s);
    var v := s.tasks[id].agv;
    assert s'.vehicles == s.vehicles[v := s'.vehicles[v]];
    assert s'.tasks == s.tasks[id := s'.tasks[id]];
    assert UnderWay(s, id);
    ExecutedHeld(s, id, v, s', s'.vehicles[v], s'.tasks[id]);
  }

  lemma QueuedKnown(s: State, id: int)
    requires Queued(s, id)
    ensures id in s.tasks
  {}

  lemma KnownPositive(s: State)
    requires Placed(s)
    ensures 0 !in s.tasks
  {}

  /** Steps after which the same tasks are live, named and under way. */
  lemma SameLiveHeld(s: State, s': State)
    requires Held(s)
    requires forall x :: Live(s', x) <==> Live(s, x)
    requires s'.tasks.Keys == s.tasks.Keys
    requires forall x :: x in s.tasks ==> s'.tasks[x].agv == s.tasks[x].agv
    requires forall x :: x in s.tasks && s'.tasks[x].index > 0 ==> x in s'.log
    requires s'.vehicles.Keys == s.vehicles.Keys
    requires forall v :: v in s.vehicles ==>
               && s'.vehicles[v].task == s.vehicles[v].task
               && (s'.vehicles[v].idle ==> s.vehicles[v].idle || s.vehicles[v].task == 0)
    requires s.log.Keys <= s'.log.Keys <= s.log.Keys + s.running
    requires forall x :: x in s'.doing || x in s'.running ==> x in s.doing || x in s.running
    requires 0 !in s.tasks
    ensures Held(s')
  {
    hide Live;
    forall x | UnderWay(s', x) ensures Holding(s', x) {
      assert UnderWay(s, x);
      assert Holding(s, x);
    }
    forall w | w in s'.vehicles && s'.vehicles[w].task != 0
      ensures ServesLive(s', w, s'.vehicles[w].task)
    {
      assert UnderWay(s, s.vehicles[w].task);
    }
  }

  lemma CompleteLive(s: State, id: int)
    requires Placed(s) && id in s.running && id in s.tasks
    ensures forall x :: Live(CompleteNode(s, id), x) <==> Live(s, x)
  {
    hide NoDup, Kept, RemoveAll;
    var s' := CompleteNode(s, id);
    assert HasNode(s, id);
    if !s.tasks[id].cancelled {
      var p := s.tasks[id].priority;
      assert id in s.doing;
      assert forall q, x :: x in QueueOf(s'.queues, q) <==> x in QueueOf(s.queues, q) || (q == p && x == id);
    } else {
      assert s'.queues == s.queues && s'.doing == s.doing;
    }
  }

  lemma CompleteHeld(s: State, id: int)
    requires Placed(s) && Held(s) && Enabled(s, Complete(id))
    ensures Held(Apply(s, Complete(id)))
  {
    hide Placed, Live, LogOf;
    var s' := CompleteNode(s, id);
    CompleteLive(s, id);
    KnownPositive(s);
    assert HasNode(s, id) by { RunningHasNode(s, id); }
    assert forall x :: x in s'.doing || x in s'.running ==> x in s.doing || x in s.running;
    SameLiveHeld(s, s');
  }

  lemma RunningHasNode(s: State, id: int)
    requires Placed(s) && id in s.running
    ensures HasNode(s, id)
  {}

  lemma WrapHeld(s: State, id: int)
    requires Placed(s) && Held(s) && Enabled(s, Wrap(id))
    ensures Held(WrapTask(s, id))
  {
    hide Placed;
    KnownPositive(s);
    SameLiveHeld(s, WrapTask(s, id));
  }

  lemma MarkHeld(s: State, id: int, s': State)
    requires Placed(s) && Held(s) && s' == s.(tasks := Mark(s.tasks, id))
    ensures Held(s')
  {
    hide Placed, Mark;
    KnownPositive(s);
    MarkKeeps(s.tasks, id);
    SameLiveHeld(s, s');
  }

  lemma ReportHeld(s: State, v: int, u: Vehicle)
    requires Placed(s) && Held(s) && Enabled(s, Report(v, u))
    ensures Held(Apply(s, Report(v, u)))
  {
    hide Placed;
    KnownPositive(s);
    SameLiveHeld(s, Apply(s, Report(v, u)));
  }

  // ---------------------------------------------------------------- setting a vehicle free

  /** The task that leaves is the only change: the invariant survives exactly when the vehicle it
      names serves no other task. */
  lemma FreedHeldIff(s: State, id: int, s': State)
    requires Held(s) && 0 !in s.tasks && id in s.tasks && Live(s, id)
    requires forall x :: Live(s', x) <==> Live(s, x) && x != id
    requires s'.vehicles == FreeVehicle(s.vehicles, s.tasks[id].agv)
    requires s'.tasks.Keys == s.tasks.Keys && s'.log == s.log
    requires forall x :: x in s.tasks ==> s'.tasks[x].agv == s.tasks[x].agv && s'.tasks[x].index == s.tasks[x].index
    requires forall x :: x in s'.doing || x in s'.running ==> x in s.doing || x in s.running
    ensures Held(s') <==> Clear(s, id)
  {
    hide Live;
    var v := s.tasks[id].agv;
    if !Clear(s, id) {
      var other := s.vehicles[v].task;
      assert ServesLive(s, v, other);
      assert UnderWay(s', other) && !Holding(s', other);
    } else {
      forall x | UnderWay(s', x) ensures Holding(s', x) {
        assert UnderWay(s, x);
        assert Holding(s, x);
        assert s.tasks[x].agv != v;
      }
      forall w | w in s'.vehicles && s'.vehicles[w].task != 0 ensures ServesLive(s', w, s'.vehicles[w].task) {
        assert w != v;
        assert ServesLive(s, w, s.vehicles[w].task);
        assert s.vehicles[w].task == id ==> w == v;
      }
    }
  }

  lemma CancelLiveness(s: State, id: int)
    requires Placed(s) && Live(s, id) && id in s.tasks
    ensures forall x :: Live(CancelLive(s, id), x) <==> Live(s, x) && x != id
    ensures CancelLive(s, id).tasks.Keys == s.tasks.Keys
    ensures forall x :: x in s.tasks ==> CancelLive(s, id).tasks[x].agv == s.tasks[x].agv
    ensures forall x :: x in s.tasks ==> CancelLive(s, id).tasks[x].index == s.tasks[x].index
  {
    hide NoDup, Kept, QueueOf, Unqueue, RemoveAll, Mark, ListsTidy;
    var s' := CancelLive(s, id);
    UnqueueKeeps(s.queues, id);
    MarkKeeps(s.tasks, id);
    var v := s.tasks[id].agv;
    MarkKeeps(Mark(s.tasks, id), if v in s.vehicles then s.vehicles[v].task else 0);
  }

  /** Cancelling a task keeps vehicles and tasks matched exactly when the vehicle it names serves no
      other task: otherwise that vehicle is set idle in the middle of the other task. */
  lemma CancelKeepsIff(s: State, id: int)
    requires Placed(s) && Held(s) && Live(s, id) && id in s.tasks
    ensures Held(CancelLive(s, id)) <==> Clear(s, id)
  {
    hide Placed, Held, Live, CancelLive;
    CancelLiveness(s, id);
    KnownPositive(s);
    CancelLists(s, id);
    FreedHeldIff(s, id, CancelLive(s, id));
  }

  lemma CancelLists(s: State, id: int)
    requires id in s.tasks
    ensures var s' := CancelLive(s, id);
      && s'.vehicles == FreeVehicle(s.vehicles, s.tasks[id].agv) && s'.log == s.log && s'.running == s.running
      && forall x :: x in s'.doing ==> x in s.doing
  {}

  /** The same for finishing a task. */
  lemma FinishKeepsIff(s: State, id: int)
    requires Placed(s) && Held(s) && Enabled(s, Finish(id))
    ensures Held(Apply(s, Finish(id))) <==> Clear(s, id)
  {
    hide Placed, Held, Unqueue, Live;
    var s' := Apply(s, Finish(id));
    QueuedIsLive(s, id);
    KnownPositive(s);
    UnqueueLiveness(s, id, s');
    FreedHeldIff(s, id, s');
  }

  lemma UnqueueLiveness(s: State, id: int, s': State)
    requires Placed(s) && Queued(s, id)
    requires s'.queues == Unqueue(s.queues, id) && s'.doing == s.doing && s'.tasks == s.tasks
    ensures forall x :: Live(s', x) <==> Live(s, x) && x != id
  {
    hide NoDup, Kept, QueueOf, Unqueue, ListsTidy;
    UnqueueKeeps(s.queues, id);
  }

  /** A task with nodes that reached its end was executed, so its vehicle serves it. */
  lemma FinishedIsClear(s: State, id: int)
    requires Held(s) && Enabled(s, Finish(id)) && s.tasks[id].nodes != []
    ensures Clear(s, id)
  {
    assert UnderWay(s, id);
    assert Holding(s, id);
  }

  // ---------------------------------------------------------------- whole runs

  ghost predicate NodesKnown(s: State) {
    forall id :: id in s.tasks ==> s.tasks[id].nodes != []
  }

  /** What a user must respect: a task has a node, and a task is cancelled only while the vehicle it
      names serves no other task. */
  predicate Careful(s: State, step: Step) {
    match step
    case Submit(id, t) => t.nodes != []
    case Cancel(id) => Live(s, id) && id in s.tasks ==> Clear(s, id)
    case _ => true
  }

  lemma NodesKept(s: State, step: Step)
    requires NodesKnown(s) && Enabled(s, step) && Careful(s, step)
    ensures NodesKnown(Apply(s, step))
  {
    hide Queued, Live, Unqueue, Enqueue, Clear, Holding, Mark;
    match step
    case Cancel(id) =>
      MarkKeeps(s.tasks, id);
      if id in s.tasks {
        var v := s.tasks[id].agv;
        MarkKeeps(Mark(s.tasks, id), if v in s.vehicles then s.vehicles[v].task else 0);
      }
    case Abandon(v) => MarkKeeps(s.tasks, s.vehicles[v].task);
    case Complete(id) => CompleteNodes(s, id);
    case Submit(id, t) => EnqueueTasks(s, id, t);
    case Start(id, v, path, halt) => QueuedKnown(s, id);
    case Wrap(id) => QueuedKnown(s, id);
    case _ =>
  }

  lemma CompleteNodes(s: State, id: int)
    requires id in s.tasks
    ensures CompleteNode(s, id).tasks.Keys == s.tasks.Keys
    ensures forall x :: x in s.tasks ==> CompleteNode(s, id).tasks[x].nodes == s.tasks[x].nodes
  {}

  lemma EnqueueTasks(s: State, id: int, t: Task)
    ensures Enqueue(s.(tasks := s.tasks[id := t]), id).tasks == s.tasks[id := t]
  {}

  lemma HeldKept(s: State, step: Step)
    requires Placed(s) && Held(s) && NodesKnown(s) && Enabled(s, step) && Careful(s, step)
    ensures Held(Apply(s, step))
  {
    hide Placed, Held, Live, Queued, Unqueue, Enqueue, CompleteNode, CancelLive, StartOn, Execute, FinishTask;
    match step
    case Submit(id, t) => SubmitHeld(s, id, t);
    case Start(id, v, path, halt) => StartHeld(s, id, v, path, halt);
    case Resume(id) => ResumeHeld(s, id);
    case Wrap(id) => WrapHeld(s, id);
    case Finish(id) =>
      QueuedKnown(s, id);
      FinishedIsClear(s, id);
      FinishKeepsIff(s, id);
    case Complete(id) => CompleteHeld(s, id);
    case Cancel(id) => if Live(s, id) && id in s.tasks { CancelKeepsIff(s, id); }
    case Abandon(v) => MarkHeld(s, s.vehicles[v].task, Apply(s, step));
    case Report(v, u) => ReportHeld(s, v, u);
  }

  /** No tasks yet, and no vehicle serves one. */
  ghost predicate Fresh(s: State) {
    && s.tasks == map[] && s.queues == map[] && s.doing == [] && s.done == [] && s.gone == []
    && s.running == {} && s.log == map[] && 0 !in s.vehicles
    && forall v :: v in s.vehicles ==> s.vehicles[v].task == 0
  }

  lemma FreshInv(s: State)
    requires Fresh(s)
    ensures Placed(s) && Held(s) && NodesKnown(s)
  {
    assert forall p :: QueueOf(s.queues, p) == [];
    assert QueuesTidy(s);
    assert ListsTidy(s);
    assert forall id :: !Live(s, id);
    assert Held(s);
  }

  /** In every run from a fresh state every submitted task is always in exactly one place. */
  lemma {:induction false} TasksConserved(states: seq<State>, steps: seq<Step>)
    requires IsRun(states, steps) && Fresh(states[0])
    ensures forall i :: 0 <= i < |states| ==> Placed(states[i])
  {
    hide Placed, Enabled, Apply, Fresh;
    FreshInv(states[0]);
    for i := 0 to |steps|
      invariant forall k :: 0 <= k <= i ==> Placed(states[k])
    {
      assert Placed(states[i]);
      PlacedKept(states[i], steps[i]);
    }
  }

  /** In every careful run from a fresh state two executing tasks never share a vehicle, and no
      vehicle is idle while its task is under way. */
  lemma {:induction false} AlwaysOneTaskPerVehicle(states: seq<State>, steps: seq<Step>)
    requires IsRun(states, steps) && Fresh(states[0])
    requires forall i :: 0 <= i < |steps| ==> Careful(states[i], steps[i])
    ensures forall i :: 0 <= i < |states| ==> OneTaskPerVehicle(states[i])
  {
    hide Placed, Held, NodesKnown, Enabled, Apply, Fresh, OneTaskPerVehicle, Careful;
    FreshInv(states[0]);
    HeldMeansOne(states[0]);
    for i := 0 to |steps|
      invariant forall k :: 0 <= k <= i ==> OneTaskPerVehicle(states[k])
      invariant Placed(states[i]) && Held(states[i]) && NodesKnown(states[i])
    {
      PlacedKept(states[i], steps[i]);
      NodesKept(states[i], steps[i]);
      HeldKept(states[i], steps[i]);
      HeldMeansOne(states[i + 1]);
    }
  }

  /** A step that sets a vehicle free finds it serving the task that leaves, or none. */
  predicate FreesOwn(s: State, step: Step) {
    match step
    case Cancel(id) => Live(s, id) && id in s.tasks ==> Clear(s, id)
    case Finish(id) => id in s.tasks ==> Clear(s, id)
    case _ => true
  }

  /** The vehicle named by the task that leaves serves another one, and is set idle. */
  lemma FreedWhileServing(s: State, id: int, s': State)
    requires Held(s) && 0 !in s.tasks && id in s.tasks && !Clear(s, id)
    requires forall x :: Live(s', x) <==> Live(s, x) && x != id
    requires s'.vehicles == FreeVehicle(s.vehicles, s.tasks[id].agv)
    requires s'.tasks.Keys == s.tasks.Keys && s'.log == s.log
    requires forall x :: x in s.tasks ==> s'.tasks[x].agv == s.tasks[x].agv
    ensures !OneTaskPerVehicle(s')
  {
    hide Live;
    var v := s.tasks[id].agv;
    var other := s.vehicles[v].task;
    assert ServesLive(s, v, other);
    assert UnderWay(s', other) && AgvOf(s', other) == v;
  }

  lemma CancelledWhileServing(s: State, id: int)
    requires Placed(s) && Held(s) && Live(s, id) && id in s.tasks && !Clear(s, id)
    ensures !OneTaskPerVehicle(CancelLive(s, id))
  {
    hide Placed, Held, Live, CancelLive, OneTaskPerVehicle, Clear;
    CancelLiveness(s, id);
    KnownPositive(s);
    CancelLists(s, id);
    FreedWhileServing(s, id, CancelLive(s, id));
  }

  lemma FinishedWhileServing(s: State, id: int)
    requires Placed(s) && Held(s) && Enabled(s, Finish(id)) && id in s.tasks && !Clear(s, id)
    ensures !OneTaskPerVehicle(Apply(s, Finish(id)))
  {
    hide Placed, Held, Unqueue, Live, OneTaskPerVehicle, Clear;
    KnownPositive(s);
    UnqueueLiveness(s, id, Apply(s, Finish(id)));
    FreedWhileServing(s, id, Apply(s, Finish(id)));
  }

  /** While tasks and vehicles match, a step keeps them matched when it frees only the task's own
      vehicle, and otherwise a vehicle is idle in the middle of a task. */
  lemma FreesOwnDecides(s: State, step: Step)
    requires Placed(s) && Held(s) && Enabled(s, step)
    ensures FreesOwn(s, step) ==> Held(Apply(s, step))
    ensures !FreesOwn(s, step) ==> !OneTaskPerVehicle(Apply(s, step))
  {
    hide Placed, Held, Live, Queued, Unqueue, Enqueue, CompleteNode, CancelLive, StartOn, Execute, FinishTask;
    hide OneTaskPerVehicle, Clear;
    match step
    case Submit(id, t) => SubmitHeld(s, id, t);
    case Start(id, v, path, halt) => StartHeld(s, id, v, path, halt);
    case Resume(id) => ResumeHeld(s, id);
    case Wrap(id) => WrapHeld(s, id);
    case Finish(id) =>
      QueuedKnown(s, id);
      FinishKeepsIff(s, id);
      if !Clear(s, id) {
        FinishedWhileServing(s, id);
      }
    case Complete(id) => CompleteHeld(s, id);
    case Cancel(id) =>
      if Live(s, id) && id in s.tasks {
        CancelKeepsIff(s, id);
        if !Clear(s, id) {
          CancelledWhileServing(s, id);
        }
      }
    case Abandon(v) => MarkHeld(s, s.vehicles[v].task, Apply(s, step));
    case Report(v, u) => ReportHeld(s, v, u);
  }

  /** Over every run from a fresh state: two executing tasks never share a vehicle and no vehicle is idle
      while its task is under way, if and only if no task that is cancelled or finished names a vehicle
      that serves another task. */
  lemma {:induction false} OneTaskIff(states: seq<State>, steps: seq<Step>)
    requires IsRun(states, steps) && Fresh(states[0])
    ensures (forall i :: 0 <= i < |states| ==> OneTaskPerVehicle(states[i]))
            <==> forall i :: 0 <= i < |steps| ==> FreesOwn(states[i], steps[i])
  {
    FreshInv(states[0]);
    TasksConserved(states, steps);
    hide *;
    if forall i :: 0 <= i < |steps| ==> FreesOwn(states[i], steps[i]) {
      FreesOwnKeeps(states, steps);
    }
    if forall i :: 0 <= i < |states| ==> OneTaskPerVehicle(states[i]) {
      OneTaskFreesOwn(states, steps);
    }
  }

  lemma {:induction false} FreesOwnKeeps(states: seq<State>, steps: seq<Step>)
    requires IsRun(states, steps) && Held(states[0]) && forall i :: 0 <= i < |states| ==> Placed(states[i])
    requires forall i :: 0 <= i < |steps| ==> FreesOwn(states[i], steps[i])
    ensures forall i :: 0 <= i < |states| ==> OneTaskPerVehicle(states[i])
  {
    hide Placed, Held, Enabled, Apply, OneTaskPerVehicle, FreesOwn;
    HeldMeansOne(states[0]);
    for i := 0 to |steps|
      invariant Held(states[i]) && forall k :: 0 <= k <= i ==> OneTaskPerVehicle(states[k])
    {
      FreesOwnDecides(states[i], steps[i]);
      HeldMeansOne(states[i + 1]);
    }
  }

  lemma {:induction false} OneTaskFreesOwn(states: seq<State>, steps: seq<Step>)
    requires IsRun(states, steps) && Held(states[0]) && forall i :: 0 <= i < |states| ==> Placed(states[i])
    requires forall i :: 0 <= i < |states| ==> OneTaskPerVehicle(states[i])
    ensures forall i :: 0 <= i < |steps| ==> FreesOwn(states[i], steps[i])
  {
    hide Placed, Held, Enabled, Apply, OneTaskPerVehicle, FreesOwn;
    for i := 0 to |steps|
      invariant Held(states[i]) && forall k :: 0 <= k < i ==> FreesOwn(states[k], steps[k])
    {
      FreesOwnDecides(states[i], steps[i]);
    }
  }

  // ---------------------------------------------------------------- threads

  /** Two running threads never work on one vehicle. */
  ghost predicate OneThreadPerVehicle(s: State) {
    forall a, b :: a in s.running && b in s.running && a != b ==> AgvOf(s, a) != AgvOf(s, b)
  }

  /** The step starts no thread on a vehicle that another thread still works on. */
  ghost predicate OnQuietVehicle(s: State, step: Step) {
    match step
    case Start(id, v, path, halt) => forall x :: x in s.running ==> AgvOf(s, x) != v
    case Resume(id) => forall x :: x in s.running ==> AgvOf(s, x) != AgvOf(s, id)
    case _ => true
  }

  /** One more thread is fine exactly when nobody works on its vehicle. */
  lemma OneMoreThread(s: State, id: int, v: int, s': State)
    requires OneThreadPerVehicle(s) && id !in s.running && s'.running == s.running + {id} && AgvOf(s', id) == v
    requires forall x :: x in s.running ==> AgvOf(s', x) == AgvOf(s, x)
    ensures OneThreadPerVehicle(s') <==> forall x :: x in s.running ==> AgvOf(s, x) != v
  {
    hide AgvOf;
    if OneThreadPerVehicle(s') {
      forall x | x in s.running ensures AgvOf(s, x) != v {
        assert x in s'.running && id in s'.running;
      }
    }
  }

  lemma FewerThreads(s: State, s': State)
    requires OneThreadPerVehicle(s) && s'.running <= s.running
    requires forall x :: x in s.running ==> AgvOf(s', x) == AgvOf(s, x)
    ensures OneThreadPerVehicle(s')
  {
    hide AgvOf;
  }

  /** What the steps do to the threads and to the vehicles their tasks name. */
  lemma ThreadsAfter(s: State, step: Step)
    requires Placed(s) && Enabled(s, step)
    ensures var s' := Apply(s, step);
      && (step.Start? ==> step.id !in s.running && s'.running == s.running + {step.id} && AgvOf(s', step.id) == step.v)
      && (step.Resume? ==> step.id !in s.running && s'.running == s.running + {step.id}
                           && AgvOf(s', step.id) == AgvOf(s, step.id))
      && (!step.Start? && !step.Resume? ==> s'.running <= s.running)
      && forall x :: x in s.running ==> AgvOf(s', x) == AgvOf(s, x)
  {
    hide Kept, NoDup, RemoveAll, Unqueue, Mark;
    match step
    case Submit(id, t) => EnqueueTasks(s, id, t);
    case Complete(id) => CompleteAgvs(s, id);
    case Cancel(id) =>
      if id in s.tasks {
        MarkKeeps(s.tasks, id);
        MarkKeeps(Mark(s.tasks, id), if s.tasks[id].agv in s.vehicles then s.vehicles[s.tasks[id].agv].task else 0);
      }
    case Abandon(v) => MarkKeeps(s.tasks, s.vehicles[v].task);
    case _ =>
  }

  lemma CompleteAgvs(s: State, id: int)
    requires id in s.tasks
    ensures CompleteNode(s, id).running == s.running - {id}
    ensures forall x :: AgvOf(CompleteNode(s, id), x) == AgvOf(s, x)
  {}

  lemma ThreadsKeptIff(s: State, step: Step)
    requires Placed(s) && Enabled(s, step) && OneThreadPerVehicle(s)
    ensures OneThreadPerVehicle(Apply(s, step)) <==> OnQuietVehicle(s, step)
  {
    hide Placed, Enabled, Apply, OneThreadPerVehicle, AgvOf;
    ThreadsAfter(s, step);
    match step
    case Start(id, v, path, halt) => OneMoreThread(s, id, v, Apply(s, step));
    case Resume(id) => OneMoreThread(s, id, AgvOf(s, id), Apply(s, step));
    case _ => FewerThreads(s, Apply(s, step));
  }

  /** Over every run from a fresh state: two threads never work on one vehicle if and only if no thread
      is started on a vehicle that another one still works on. */
  lemma {:induction false} OneThreadIff(states: seq<State>, steps: seq<Step>)
    requires IsRun(states, steps) && Fresh(states[0])
    ensures (forall i :: 0 <= i < |states| ==> OneThreadPerVehicle(states[i]))
            <==> forall i :: 0 <= i < |steps| ==> OnQuietVehicle(states[i], steps[i])
  {
    TasksConserved(states, steps);
    assert OneThreadPerVehicle(states[0]);
    hide Placed, Enabled, Apply, Fresh, OneThreadPerVehicle, OnQuietVehicle;
    if forall i :: 0 <= i < |steps| ==> OnQuietVehicle(states[i], steps[i]) {
      for i := 0 to |steps|
        invariant forall k :: 0 <= k <= i ==> OneThreadPerVehicle(states[k])
      {
        assert OnQuietVehicle(states[i], steps[i]);
        ThreadsKeptIff(states[i], steps[i]);
      }
    }
    if forall i :: 0 <= i < |states| ==> OneThreadPerVehicle(states[i]) {
      forall i | 0 <= i < |steps| ensures OnQuietVehicle(states[i], steps[i]) {
        assert OneThreadPerVehicle(states[i]) && OneThreadPerVehicle(states[i + 1]);
        ThreadsKeptIff(states[i], steps[i]);
      }
    }
  }

  /** While tasks and vehicles match, the only thread that may still work on a vehicle that is given a
      task is that of a cancelled one. */
  lemma OnlyCancelledThreads(s: State, id: int, v: int, path: seq<int>, halt: Option<int>, x: int)
    requires Placed(s) && Held(s) && Enabled(s, Start(id, v, path, halt)) && x in s.running && AgvOf(s, x) == v
    ensures x in s.gone && x !in s.doing && s.tasks[x].cancelled
  {
    hide Kept, NoDup;
    if x in s.doing {
      ExecutingServes(s, x);
    }
  }

  lemma ExecutingServes(s: State, id: int)
    requires Held(s) && id in s.doing
    ensures Holding(s, id)
  {
    assert UnderWay(s, id);
  }

  /** A cancelled task that is in no queue never gets into one again. */
  lemma CancelledStaysOut(s: State, step: Step, id: int)
    requires Placed(s) && Enabled(s, step) && id in s.tasks && s.tasks[id].cancelled && !Queued(s, id)
    ensures id in Apply(s, step).tasks && Apply(s, step).tasks[id].cancelled && !Queued(Apply(s, step), id)
  {
    hide NoDup, Kept, RemoveAll, Unqueue, QueueOf, Mark;
    match step
    case Start(x, v, path, halt) => UnqueueKeeps(s.queues, x);
    case Resume(x) => UnqueueKeeps(s.queues, x);
    case Finish(x) => UnqueueKeeps(s.queues, x);
    case Cancel(x) =>
      if x in s.tasks {
        UnqueueKeeps(s.queues, x);
        CancelMarks(s, x, id);
      }
    case Complete(x) => CompleteKeepsOut(s, x, id);
    case Submit(x, t) => SubmitKeepsOut(s, x, t, id);
    case Abandon(v) => MarkKeeps(s.tasks, s.vehicles[v].task);
    case _ =>
  }

  lemma CancelMarks(s: State, x: int, id: int)
    requires x in s.tasks && id in s.tasks
    ensures var tasks := CancelLive(s, x).tasks;
      id in tasks && tasks[id].priority == s.tasks[id].priority && (s.tasks[id].cancelled ==> tasks[id].cancelled)
  {
    hide Unqueue, RemoveAll;
  }

  lemma CompleteKeepsOut(s: State, x: int, id: int)
    requires Placed(s) && x in s.running && x in s.tasks
    requires id in s.tasks && s.tasks[id].cancelled && !Queued(s, id)
    ensures id in CompleteNode(s, x).tasks && CompleteNode(s, x).tasks[id].cancelled && !Queued(CompleteNode(s, x), id)
  {
    hide NoDup, Kept, RemoveAll;
    assert HasNode(s, x);
  }

  lemma SubmitKeepsOut(s: State, x: int, t: Task, id: int)
    requires x !in s.tasks && id in s.tasks && s.tasks[id].cancelled && !Queued(s, id)
    ensures var s' := Enqueue(s.(tasks := s.tasks[x := t]), x);
      id in s'.tasks && s'.tasks[id].cancelled && !Queued(s', id)
  {}
}
