/** The order inside the queues: of two waiting tasks of one priority the one that came first stands in
    front, whatever happens to other tasks. */
module TaskQueues {
  import opened Wrappers
  import opened Tasks

  /** `a` stands in front of `b`. */
  ghost predicate InFront(q: seq<int>, a: int, b: int) {
    exists i, j :: 0 <= i < j < |q| && q[i] == a && q[j] == b
  }

  lemma FrontOfRest(q: seq<int>, x: int, a: int, b: int)
    ensures InFront(q, a, b) ==> InFront(q + [x], a, b)
    ensures a in q ==> InFront(q + [x], a, x)
    ensures InFront(q + [x], a, b) && b != x ==> InFront(q, a, b)
  {
    if InFront(q, a, b) {
      var i, j :| 0 <= i < j < |q| && q[i] == a && q[j] == b;
      assert (q + [x])[i] == a && (q + [x])[j] == b;
    }
    if a in q {
      var i :| 0 <= i < |q| && q[i] == a;
      assert (q + [x])[i] == a && (q + [x])[|q|] == x;
    }
  }

  /** Taking a task out changes nothing about the order of the others. */
  lemma {:induction false} OrderLeft(q: seq<int>, x: int, a: int, b: int)
    requires InFront(q, a, b) && a != x && b != x
    ensures InFront(RemoveAll(q, x), a, b)
  {
    var rest, last := q[..|q| - 1], q[|q| - 1];
    assert q == rest + [last];
    var i, j :| 0 <= i < j < |q| && q[i] == a && q[j] == b;
    if j < |rest| {
      assert rest[i] == a && rest[j] == b;
      OrderLeft(rest, x, a, b);
      FrontOfRest(RemoveAll(rest, x), last, a, b);
    } else {
      assert rest[i] == a;
      FrontOfRest(RemoveAll(rest, x), last, a, b);
    }
  }

  /** The task a step is about. */
  function TaskOf(step: Step): int {
    match step
    case Submit(id, t) => id
    case Start(id, v, path, halt) => id
    case Resume(id) => id
    case Wrap(id) => id
    case Finish(id) => id
    case Complete(id) => id
    case Cancel(id) => id
    case _ => 0
  }

  /** What a step does to the queues: it takes one task out of all of them, or appends one task to the
      queue of its priority, or leaves them alone. */
  lemma QueuesAfter(s: State, step: Step, s': State)
    requires Enabled(s, step) && s' == Apply(s, step)
    ensures var id := TaskOf(step);
      || s'.queues == s.queues
      || s'.queues == Unqueue(s.queues, id)
      || (id in s'.tasks && s'.queues == s.queues[s'.tasks[id].priority := QueueOf(s.queues, s'.tasks[id].priority) + [id]])
  {
    hide Unqueue, RemoveAll, Queued, LogOf, Mark, FreeVehicle;
  }

  /** A step keeps the order of the tasks that stay in a queue, and a task that enters one goes behind
      those that stay. */
  lemma OrderKept(s: State, step: Step, s': State, p: int, a: int, b: int)
    requires Enabled(s, step) && s' == Apply(s, step) && a != b
    requires a in QueueOf(s.queues, p) && a in QueueOf(s'.queues, p) && b in QueueOf(s'.queues, p)
    requires b in QueueOf(s.queues, p) ==> InFront(QueueOf(s.queues, p), a, b)
    ensures InFront(QueueOf(s'.queues, p), a, b)
  {
    QueuesAfter(s, step, s');
    hide Apply, Enabled, InFront;
    var q, id := QueueOf(s.queues, p), TaskOf(step);
    if s'.queues == Unqueue(s.queues, id) {
      OrderWithout(s.queues, id, p, a, b);
    } else if s'.queues != s.queues && p == s'.tasks[id].priority {
      FrontOfRest(q, id, a, b);
    }
  }

  lemma OrderWithout(queues: map<int, seq<int>>, x: int, p: int, a: int, b: int)
    requires a in QueueOf(Unqueue(queues, x), p) && b in QueueOf(Unqueue(queues, x), p)
    requires b in QueueOf(queues, p) ==> InFront(QueueOf(queues, p), a, b)
    ensures InFront(QueueOf(Unqueue(queues, x), p), a, b)
  {
    hide InFront, RemoveAll;
    OrderLeft(QueueOf(queues, p), x, a, b);
  }

  /** In every run: while a task waits, every task that enters its queue later stands behind it for as
      long as both wait. */
  lemma {:induction false} FirstComeFirst(states: seq<State>, steps: seq<Step>, p: int, a: int, b: int)
    requires IsRun(states, steps) && a != b
    requires forall i :: 0 <= i < |states| ==> a in QueueOf(states[i].queues, p)
    requires b !in QueueOf(states[0].queues, p)
    ensures forall i :: 0 <= i < |states| && b in QueueOf(states[i].queues, p) ==>
              InFront(QueueOf(states[i].queues, p), a, b)
  {
    hide Enabled, Apply, InFront, QueueOf;
    for n := 0 to |steps|
      invariant forall i :: 0 <= i <= n && b in QueueOf(states[i].queues, p) ==>
                  InFront(QueueOf(states[i].queues, p), a, b)
    {
      if b in QueueOf(states[n + 1].queues, p) {
        OrderKept(states[n], steps[n], states[n + 1], p, a, b);
      }
    }
  }

  /** A start gives the task its vehicle and its route, puts a halt point in front of its nodes, and gives the
      vehicle the task; the task joins the end of the executing ones and nothing else changes but its queue. */
  lemma StartGives(s: State, id: int, v: int, path: seq<int>, halt: Option<int>, s': State)
    requires Enabled(s, Start(id, v, path, halt)) && s' == Apply(s, Start(id, v, path, halt))
    ensures id in s'.tasks && s'.tasks[id].agv == v && s'.tasks[id].path == path && s'.tasks[id].index == s.tasks[id].index
    ensures s'.tasks[id].nodes == if halt.Some? then [halt.value] + s.tasks[id].nodes else s.tasks[id].nodes
    ensures v in s'.vehicles && s'.vehicles[v] == s.vehicles[v].(task := id, idle := false)
    ensures s'.doing == s.doing + [id] && s'.running == s.running + {id} && s'.done == s.done && s'.gone == s.gone
    ensures forall x :: x != id ==> (x in s'.tasks <==> x in s.tasks) && (x in s.tasks ==> s'.tasks[x] == s.tasks[x])
    ensures forall w :: w != v ==> (w in s'.vehicles <==> w in s.vehicles) && (w in s.vehicles ==> s'.vehicles[w] == s.vehicles[w])
  {
    hide Unqueue, Queued;
  }

  /** The end of a task's thread: the node counts as executed, the route is forgotten and the next node is
      up; unless the task was cancelled it leaves the executing ones. */
  lemma CompleteGives(s: State, id: int, s': State)
    requires Enabled(s, Complete(id)) && HasNode(s, id) && s' == Apply(s, Complete(id))
    ensures id in s'.tasks && s'.tasks[id] == s.tasks[id].(path := [], index := s.tasks[id].index + 1)
    ensures s'.running == s.running - {id} && s'.vehicles == s.vehicles && s'.done == s.done && s'.gone == s.gone
    ensures forall x :: x in s'.doing <==> x in s.doing && (x != id || s.tasks[id].cancelled)
    ensures forall x :: x != id ==> (x in s'.tasks <==> x in s.tasks) && (x in s.tasks ==> s'.tasks[x] == s.tasks[x])
  {
    hide LogOf, QueueOf;
  }

  /** Cancelling marks the task and the task that the vehicle it names is serving, and no other. */
  lemma CancelMarks(s: State, id: int, x: int)
    requires Live(s, id) && id in s.tasks && x in s.tasks
    ensures x in Apply(s, Cancel(id)).tasks
    ensures Apply(s, Cancel(id)).tasks[x].cancelled <==>
              s.tasks[x].cancelled || x == id ||
              (s.tasks[id].agv in s.vehicles && s.vehicles[s.tasks[id].agv].task == x)
    ensures Apply(s, Cancel(id)).tasks[x] == s.tasks[x].(cancelled := Apply(s, Cancel(id)).tasks[x].cancelled)
  {
    hide Unqueue, RemoveAll, Queued;
  }
}
