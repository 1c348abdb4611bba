/** Which nodes a task has executed, over whole runs. */
module TaskTrace {
  import opened Wrappers
  import opened Tasks

  /** The node list `n` times over. */
  function Repeat(nodes: seq<int>, n: nat): seq<int> {
    if n == 0 then [] else Repeat(nodes, n - 1) + nodes
  }

  function Max1(n: int): nat {
    if n < 1 then 1 else n
  }

  /** The nodes executed so far: all rounds but those that are left, and the current round up to the
      index. */
  ghost predicate Traced(s: State, id: int) {
    id in s.tasks && (s.tasks[id].detoured || (
      var t := s.tasks[id];
      && t.index <= |t.nodes|
      && Max1(t.runTimes) <= Max1(t.loops)
      && LogOf(s, id) == Repeat(t.nodes, Max1(t.loops) - Max1(t.runTimes)) + t.nodes[..t.index]))
  }

  /** A done task is at the end of its last round. */
  ghost predicate Ended(s: State, id: int) {
    id in s.tasks && s.tasks[id].runTimes <= 1 && s.tasks[id].index >= |s.tasks[id].nodes|
  }

  ghost predicate Traces(s: State) {
    && (forall id :: id in s.log ==> id in s.tasks)
    && (forall id :: id in s.tasks ==> Traced(s, id))
    && (forall id :: id in s.done ==> Ended(s, id))
  }

  /** Steps that leave a task's own fields and log alone, up to marks. */
  ghost predicate SameTrace(s: State, s': State, id: int) {
    && id in s.tasks && id in s'.tasks
    && s'.tasks[id].nodes == s.tasks[id].nodes && s'.tasks[id].index == s.tasks[id].index
    && s'.tasks[id].runTimes == s.tasks[id].runTimes && s'.tasks[id].loops == s.tasks[id].loops
    && s'.tasks[id].detoured == s.tasks[id].detoured && LogOf(s', id) == LogOf(s, id)
  }

  lemma SameTraceKept(s: State, s': State, id: int)
    requires SameTrace(s, s', id)
    ensures Traced(s, id) ==> Traced(s', id)
    ensures Ended(s, id) ==> Ended(s', id)
  {
    hide LogOf, Repeat, Max1;
  }

  /** All tasks but one keep their trace, and that one is shown to keep it too. */
  lemma OthersKept(s: State, s': State, id: int)
    requires Traces(s) && id in s'.tasks && Traced(s', id)
    requires s'.tasks.Keys == s.tasks.Keys + {id} && s'.log.Keys <= s.log.Keys + {id}
    requires forall x :: x in s.tasks && x != id ==> SameTrace(s, s', x)
    requires forall x :: x in s'.done ==> x in s.done || x == id
    requires id in s'.done ==> Ended(s', id)
    ensures Traces(s')
  {
    hide Traced, SameTrace, Ended;
    forall x | x in s'.tasks ensures Traced(s', x) {
      if x != id {
        SameTraceKept(s, s', x);
      }
    }
    forall x | x in s'.done ensures Ended(s', x) {
      if x != id {
        assert x in s.tasks by { EndedKnown(s, x); }
        SameTraceKept(s, s', x);
      }
    }
  }

  lemma EndedKnown(s: State, x: int)
    requires Ended(s, x)
    ensures x in s.tasks
  {}

  lemma SubmitTraces(s: State, id: int, t: Task)
    requires Placed(s) && Traces(s) && Enabled(s, Submit(id, t))
    ensures Traces(Apply(s, Submit(id, t)))
  {
    hide QueuesTidy, Kept, Ended;
    var s' := Apply(s, Submit(id, t));
    assert id !in s.done;
    assert LogOf(s', id) == [] && t.nodes[..0] == [] && Repeat(t.nodes, 0) == [];
    assert Traced(s', id);
    hide Traced, LogOf;
    OthersKept(s, s', id);
  }

  lemma ExecuteTraces(s: State, s': State, id: int)
    requires Placed(s) && Traces(s) && Queued(s, id)
    requires s'.tasks.Keys == s.tasks.Keys && (s'.tasks[id].detoured || SameTrace(s, s', id))
    requires s'.log == s.log[id := LogOf(s, id)] && s'.done == s.done
    requires forall x :: x in s.tasks && x != id ==> s'.tasks[x] == s.tasks[x]
    ensures Traces(s')
  {
    hide Kept, Ended, ListsTidy;
    assert id !in s.done;
    assert forall x :: LogOf(s', x) == LogOf(s, x);
    assert Traced(s', id) by {
      if SameTrace(s, s', id) {
        SameTraceKept(s, s', id);
      }
    }
    hide Traced, LogOf;
    OthersKept(s, s', id);
  }

  lemma WrapTraces(s: State, id: int)
    requires Placed(s) && Traces(s) && Enabled(s, Wrap(id))
    ensures Traces(WrapTask(s, id))
  {
    assert forall x :: LogOf(WrapTask(s, id), x) == LogOf(s, x);
    hide Placed, Ended, LogOf, Queued, HasNode;
    QueuedKnown(s, id);
    QueuedNotDone(s, id);
    WrapTraced(s, id);
    hide Traced;
    OthersKept(s, WrapTask(s, id), id);
  }

  lemma QueuedNotDone(s: State, id: int)
    requires Placed(s) && Queued(s, id)
    ensures id !in s.done
  {
    hide ListsTidy, Kept;
  }

  /** The finished round moves from the nodes before the index to the finished rounds. */
  lemma WrapTraced(s: State, id: int)
    requires Traced(s, id) && id in s.tasks && !HasNode(s, id) && s.tasks[id].runTimes > 1
    ensures Traced(WrapTask(s, id), id)
  {
    hide LogOf, Repeat;
    var t := s.tasks[id];
    assert LogOf(WrapTask(s, id), id) == LogOf(s, id) by { SameLog(s, WrapTask(s, id), id); }
    if !t.detoured {
      assert t.nodes[..t.index] == t.nodes && t.nodes[..0] == [];
      RepeatOnce(t.nodes, Max1(t.loops) - Max1(t.runTimes) + 1);
    }
  }

  lemma SameLog(s: State, s': State, id: int)
    requires s'.log == s.log
    ensures LogOf(s', id) == LogOf(s, id)
  {}

  lemma FinishTraces(s: State, id: int)
    requires Placed(s) && Traces(s) && Enabled(s, Finish(id))
    ensures Traces(Apply(s, Finish(id)))
  {
    hide Kept, QueuesTidy, ListsTidy, Unqueue;
    var s' := Apply(s, Finish(id));
    assert Ended(s', id);
    SameTraceKept(s, s', id);
    hide Traced, LogOf, Ended;
    OthersKept(s, s', id);
  }

  lemma CompleteTraces(s: State, id: int)
    requires Placed(s) && Traces(s) && Enabled(s, Complete(id))
    ensures Traces(Apply(s, Complete(id)))
  {
    hide Placed, Ended;
    assert HasNode(s, id) by { RunningHasNode(s, id); }
    assert id !in s.done by { RunningNotDone(s, id); }
    var s' := CompleteNode(s, id);
    CompleteFields(s, id);
    CompleteTraced(s, id, s');
    hide Traced, CompleteNode;
    assert forall x :: x != id ==> LogOf(s', x) == LogOf(s, x);
    hide LogOf;
    OthersKept(s, s', id);
  }

  lemma RunningNotDone(s: State, id: int)
    requires Placed(s) && id in s.running
    ensures id !in s.done
  {
    hide QueuesTidy, Kept;
  }

  lemma CompleteFields(s: State, id: int)
    requires HasNode(s, id)
    ensures var s', t := CompleteNode(s, id), s.tasks[id];
      && s'.tasks == s.tasks[id := t.(path := [], index := t.index + 1)]
      && s'.log == s.log[id := LogOf(s, id) + [t.nodes[t.index]]]
      && s'.done == s.done
  {
    hide RemoveAll, LogOf;
  }

  lemma CompleteTraced(s: State, id: int, s': State)
    requires HasNode(s, id) && Traced(s, id)
    requires var t := s.tasks[id]; s'.tasks == s.tasks[id := t.(path := [], index := t.index + 1)]
    requires s'.log == s.log[id := LogOf(s, id) + [s.tasks[id].nodes[s.tasks[id].index]]]
    ensures Traced(s', id)
  {
    hide Repeat;
    var t := s.tasks[id];
    assert t.nodes[..t.index + 1] == t.nodes[..t.index] + [t.nodes[t.index]];
    if !t.detoured {
      var done := Repeat(t.nodes, Max1(t.loops) - Max1(t.runTimes));
      assert done + t.nodes[..t.index] + [t.nodes[t.index]] == done + t.nodes[..t.index + 1];
    }
  }

  lemma AllSameTraces(s: State, s': State)
    requires Traces(s) && s'.tasks.Keys == s.tasks.Keys && s'.log == s.log && s'.done == s.done
    requires forall x :: x in s.tasks ==> SameTrace(s, s', x)
    ensures Traces(s')
  {
    hide Traced, SameTrace, Ended;
    forall x | x in s'.tasks ensures Traced(s', x) {
      SameTraceKept(s, s', x);
    }
    forall x | x in s'.done ensures Ended(s', x) {
      EndedKnown(s, x);
      SameTraceKept(s, s', x);
    }
  }

  lemma MarkSame(s: State, s': State, x: int)
    requires s'.log == s.log && s'.tasks == Mark(s.tasks, x)
    ensures s'.tasks.Keys == s.tasks.Keys
    ensures forall y :: y in s.tasks ==> SameTrace(s, s', y)
  {}

  lemma CancelTraces(s: State, id: int)
    requires Traces(s) && id in s.tasks
    ensures Traces(CancelLive(s, id))
  {
    hide Unqueue, RemoveAll, Queued, Mark, Traces;
    var s' := CancelLive(s, id);
    var s1 := s.(tasks := Mark(s.tasks, id));
    MarkSame(s, s1, id);
    AllSameTraces(s, s1);
    var v := s.tasks[id].agv;
    if v in s.vehicles {
      MarkSame(s1, s', s.vehicles[v].task);
    } else {
      assert forall y :: y in s.tasks ==> SameTrace(s1, s', y);
    }
    AllSameTraces(s1, s');
  }

  lemma TracesKept(s: State, step: Step)
    requires Placed(s) && Traces(s) && Enabled(s, step)
    ensures Traces(Apply(s, step))
  {
    hide Placed, Traces, Live, Queued, Unqueue, Enqueue, CompleteNode, CancelLive, FinishTask, WrapTask, Traced, Ended, Mark;
    match step
    case Submit(id, t) => SubmitTraces(s, id, t);
    case Start(id, v, path, halt) =>
      QueuedKnown(s, id);
      ExecuteTraces(s, Apply(s, step), id);
    case Resume(id) =>
      QueuedKnown(s, id);
      ExecuteTraces(s, Apply(s, step), id);
    case Wrap(id) => WrapTraces(s, id);
    case Finish(id) => FinishTraces(s, id);
    case Complete(id) => CompleteTraces(s, id);
    case Cancel(id) => if Live(s, id) && id in s.tasks { CancelTraces(s, id); }
    case Abandon(v) =>
      MarkSame(s, Apply(s, step), s.vehicles[v].task);
      AllSameTraces(s, Apply(s, step));
    case Report(v, u) => AllSameTraces(s, Apply(s, step));
  }

  lemma FreshTraces(s: State)
    requires Fresh(s)
    ensures Traces(s)
  {}

  /** In every run a task that is done and was never sent on a detour has executed its node list, in
      order, exactly as often as it was submitted for, and at least once. */
  lemma {:induction false} DoneMeansExecuted(states: seq<State>, steps: seq<Step>)
    requires IsRun(states, steps) && Fresh(states[0])
    ensures forall i, id | 0 <= i < |states| && id in states[i].done ::
              id in states[i].tasks && (states[i].tasks[id].detoured
                || LogOf(states[i], id) == Repeat(states[i].tasks[id].nodes, Max1(states[i].tasks[id].loops)))
  {
    hide Placed, Traces, Enabled, Apply, Fresh;
    FreshInv(states[0]);
    FreshTraces(states[0]);
    for i := 0 to |steps|
      invariant forall k :: 0 <= k <= i ==> Placed(states[k]) && Traces(states[k])
    {
      assert Placed(states[i]) && Traces(states[i]);
      assert Enabled(states[i], steps[i]) && states[i + 1] == Apply(states[i], steps[i]);
      PlacedKept(states[i], steps[i]);
      TracesKept(states[i], steps[i]);
    }
    forall i, id | 0 <= i < |states| && id in states[i].done
      ensures id in states[i].tasks && (states[i].tasks[id].detoured
                || LogOf(states[i], id) == Repeat(states[i].tasks[id].nodes, Max1(states[i].tasks[id].loops)))
    {
      assert Traces(states[i]);
      DoneTrace(states[i], id);
    }
  }

  lemma DoneTrace(s: State, id: int)
    requires Traces(s) && id in s.done
    ensures id in s.tasks && (s.tasks[id].detoured
              || LogOf(s, id) == Repeat(s.tasks[id].nodes, Max1(s.tasks[id].loops)))
  {
    hide LogOf, Repeat;
    assert Ended(s, id) && Traced(s, id);
    var t := s.tasks[id];
    if !t.detoured {
      assert t.nodes[..t.index] == t.nodes;
      RepeatOnce(t.nodes, Max1(t.loops));
    }
  }

  lemma RepeatOnce(nodes: seq<int>, n: nat)
    requires n >= 1
    ensures Repeat(nodes, n - 1) + nodes == Repeat(nodes, n)
  {}

  // ---------------------------------------------------------------- the work that is left

  /** Executions still to come. */
  function Remaining(t: Task): int {
    (Max1(t.runTimes) - 1) * |t.nodes| + |t.nodes| - t.index
  }

  lemma {:induction false} RepeatLength(nodes: seq<int>, n: nat)
    ensures |Repeat(nodes, n)| == n * |nodes|
  {
    if n > 0 {
      RepeatLength(nodes, n - 1);
    }
  }

  /** What was executed and what is left add up to what the task was submitted for. */
  lemma WorkAddsUp(s: State, id: int)
    requires Traced(s, id) && !s.tasks[id].detoured
    ensures |LogOf(s, id)| + Remaining(s.tasks[id]) == Max1(s.tasks[id].loops) * |s.tasks[id].nodes|
    ensures Remaining(s.tasks[id]) >= 0
  {
    hide LogOf, Repeat, Max1;
    var t := s.tasks[id];
    var n := |t.nodes|;
    RepeatLength(t.nodes, Max1(t.loops) - Max1(t.runTimes));
    Distribute(Max1(t.loops), Max1(t.runTimes), n);
    assert Max1(t.runTimes) >= 1 by { AtLeastOne(t.runTimes); }
    Natural(Max1(t.runTimes) - 1, n);
  }

  lemma AtLeastOne(n: int)
    ensures Max1(n) >= 1
  {}

  lemma Natural(a: nat, b: nat)
    ensures a * b >= 0
  {}

  lemma Distribute(a: int, b: int, n: int)
    ensures (a - b) * n + (b - 1) * n + n == a * n
  {}

  /** Every completed node is one execution less to come, and no other step of an undetoured task
      changes the number. */
  lemma RemainingCountsDown(s: State, step: Step, id: int)
    requires Placed(s) && Traces(s) && Enabled(s, step) && id in s.tasks
    requires !Apply(s, step).tasks[id].detoured
    ensures Remaining(Apply(s, step).tasks[id]) == Remaining(s.tasks[id]) - (if step == Complete(id) then 1 else 0)
  {
    hide Placed, Traces, RemoveAll, Unqueue, Mark, Queued, CompleteNode, CancelLive;
    var s' := Apply(s, step);
    match step
    case Complete(x) => CompleteRemaining(s, x, id);
    case Wrap(x) =>
      QueuedKnown(s, x);
      WrapRemaining(s, x, id);
    case Cancel(x) => if Live(s, x) && x in s.tasks { CancelSame(s, x, id); }
    case Abandon(v) => MarkSame(s, s', s.vehicles[v].task);
    case _ =>
  }

  lemma CompleteRemaining(s: State, x: int, id: int)
    requires Placed(s) && x in s.running && x in s.tasks && id in s.tasks
    ensures id in CompleteNode(s, x).tasks
    ensures Remaining(CompleteNode(s, x).tasks[id]) == Remaining(s.tasks[id]) - if x == id then 1 else 0
  {
    assert HasNode(s, x) by { RunningHasNode(s, x); }
    hide Placed, RemoveAll, LogOf;
  }

  lemma WrapRemaining(s: State, x: int, id: int)
    requires Traces(s) && id in s.tasks && x in s.tasks && !HasNode(s, x) && s.tasks[x].runTimes > 1
    ensures !WrapTask(s, x).tasks[id].detoured ==> Remaining(WrapTask(s, x).tasks[id]) == Remaining(s.tasks[id])
  {
    assert Traced(s, id);
    hide Traces, LogOf, Repeat;
    if x == id {
      Distribute(s.tasks[id].runTimes, s.tasks[id].runTimes - 1, |s.tasks[id].nodes|);
    }
  }

  lemma CancelSame(s: State, x: int, id: int)
    requires x in s.tasks && id in s.tasks
    ensures id in CancelLive(s, x).tasks
    ensures var t' := CancelLive(s, x).tasks[id];
      t'.runTimes == s.tasks[id].runTimes && t'.nodes == s.tasks[id].nodes && t'.index == s.tasks[id].index
  {
    hide Unqueue, RemoveAll, Queued;
  }

  // ---------------------------------------------------------------- detours

  /** Sending a task on a detour: the node executed next is the halt point exactly when the task had
      not started its round; otherwise the previous node is executed once more.  Either way the task
      then goes on with the node it was about to execute. */
  lemma DetourThenComplete(s: State, id: int, v: int, path: seq<int>, h: int, s2: State)
    requires Placed(s) && Enabled(s, Start(id, v, path, Some(h)))
    requires s2 == Apply(s, Start(id, v, path, Some(h))) && !s.tasks[id].cancelled
    ensures Enabled(s2, Complete(id))
    ensures var s3, t := Apply(s2, Complete(id)), s.tasks[id];
      && LogOf(s3, id) == LogOf(s, id) + [if t.index == 0 then h else t.nodes[t.index - 1]]
      && HasNode(s3, id) && s3.tasks[id].nodes[s3.tasks[id].index] == t.nodes[t.index]
      && Queued(s3, id)
  {
    hide Kept, QueuesTidy, RemoveAll, Unqueue;
  }
}
