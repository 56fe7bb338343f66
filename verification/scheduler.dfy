/** The content manager's background task scheduler as a sequential state
    machine: two FIFO queues (normal and low priority), a task-ID counter and
    the slot of the task in flight. The worker thread, its lock and its
    condition variable are replaced by the pure step `WorkerStep`. */
module Scheduler {
  import opened Common

  /** The constructor starts the task counter at 1. */
  const FirstTaskId: nat := 1
  /** Task IDs are `unsigned int`: the counter wraps around at 2^32. */
  const TaskIdBound: nat := 0x1_0000_0000
  /** Parent task ID of a task that was not spawned by another task. */
  const NoParent: nat := 0

  /** The queued work items the content manager creates. */
  datatype TaskKind =
    | AddFileTask(path: string)
    | RemoveTask(objectId: int)
    | RescanTask(scanId: int, containerId: int)

  /** Who owns a task: only content-manager tasks live in these queues. */
  datatype TaskOwner = ContentManagerTask | TaskProcessorTask

  datatype Task = Task(id: nat, parentId: nat, kind: TaskKind, cancellable: bool, valid: bool)

  /** `taskQueue1` is `normal`, `taskQueue2` is `low`. */
  datatype State = State(nextId: nat, normal: seq<Task>, low: seq<Task>, current: Option<Task>)

  /** What one turn of the worker loop did. */
  datatype StepOutcome = Idle | Skipped(task: Task) | Ran(task: Task)

  function Initial(): State
  {
    State(FirstTaskId, [], [], None)
  }

  function CurrentSeq(s: State): seq<Task>
  {
    if s.current.Some? then [s.current.value] else []
  }

  /** Every task the scheduler knows of: queued or in flight. */
  function AllTasks(s: State): seq<Task>
  {
    s.normal + s.low + CurrentSeq(s)
  }

  predicate IdsInRange(ts: seq<Task>, bound: nat)
  {
    forall i :: 0 <= i < |ts| ==> FirstTaskId <= ts[i].id < bound
  }

  /** Task IDs strictly increase from the front of a queue to its back. */
  predicate IdsIncreasing(ts: seq<Task>)
  {
    forall i, j :: 0 <= i < j < |ts| ==> ts[i].id < ts[j].id
  }

  /** No task of `a` shares its ID with a task of `b`. */
  predicate IdsDisjoint(a: seq<Task>, b: seq<Task>)
  {
    forall i, j :: 0 <= i < |a| && 0 <= j < |b| ==> a[i].id != b[j].id
  }

  /** The scheduler invariant: the counter has not wrapped, every known task
      carries an ID handed out earlier, no ID is held twice, and each queue is
      in ID order. */
  predicate Wf(s: State)
  {
    && FirstTaskId <= s.nextId < TaskIdBound
    && IdsInRange(s.normal, s.nextId)
    && IdsInRange(s.low, s.nextId)
    && IdsInRange(CurrentSeq(s), s.nextId)
    && IdsIncreasing(s.normal)
    && IdsIncreasing(s.low)
    && IdsDisjoint(s.normal, s.low)
    && IdsDisjoint(s.normal, CurrentSeq(s))
    && IdsDisjoint(s.low, CurrentSeq(s))
  }

  /** `addTask`: stamp the task with the counter, advance the counter, and
      append the task to the queue its priority selects. */
  function AddTask(s: State, t: Task, lowPriority: bool): State
  {
    var stamped := t.(id := s.nextId);
    var next := (s.nextId + 1) % TaskIdBound;
    if !lowPriority then s.(nextId := next, normal := s.normal + [stamped])
    else s.(nextId := next, low := s.low + [stamped])
  }

  /** One turn of the worker loop of `threadProc`: clear the current slot,
      take the front of the normal queue, else the front of the low queue,
      make it current, and run it only if it is still valid. */
  function WorkerStep(s: State): (r: (State, StepOutcome))
    ensures r.1.Idle? <==> |s.normal| == 0 && |s.low| == 0
    ensures r.1.Ran? ==> r.1.task.valid
    ensures r.1.Skipped? ==> !r.1.task.valid
    ensures |s.normal| > 0 ==> !r.1.Idle? && r.1.task == s.normal[0] && r.0.normal == s.normal[1..] && r.0.low == s.low
    ensures |s.normal| == 0 && |s.low| > 0 ==> !r.1.Idle? && r.1.task == s.low[0] && r.0.low == s.low[1..] && r.0.normal == s.normal
    ensures r.1.Idle? ==> r.0 == s.(current := None)
    ensures r.0.current == (if r.1.Idle? then None else Some(r.1.task))
    ensures r.0.nextId == s.nextId
  {
    var s0 := s.(current := None);
    if |s.normal| > 0 then
      var t := s.normal[0];
      (s0.(normal := s.normal[1..], current := Some(t)), if t.valid then Ran(t) else Skipped(t))
    else if |s.low| > 0 then
      var t := s.low[0];
      (s0.(low := s.low[1..], current := Some(t)), if t.valid then Ran(t) else Skipped(t))
    else
      (s0, Idle)
  }

  /** The outcomes of letting the worker run, with no new work arriving,
      until both queues are empty. */
  function Drain(s: State): seq<StepOutcome>
    decreases |s.normal| + |s.low|
  {
    var (s', o) := WorkerStep(s);
    if o.Idle? then [] else [o] + Drain(s')
  }

  /** A task whose own ID or parent ID is `taskId` loses its validity. */
  function InvalidateIfMatches(t: Task, taskId: nat): Task
  {
    if t.id == taskId || t.parentId == taskId then t.(valid := false) else t
  }

  function InvalidateMatching(ts: seq<Task>, taskId: nat): seq<Task>
  {
    seq(|ts|, i requires 0 <= i < |ts| => InvalidateIfMatches(ts[i], taskId))
  }

  /** `after` is `before` with only the validity flags changed, and a task is
      valid afterwards exactly when it was valid and `hit` does not select it. */
  predicate ClearedWhere(before: seq<Task>, after: seq<Task>, hit: Task -> bool)
  {
    && |after| == |before|
    && forall i :: 0 <= i < |before| ==>
         after[i] == before[i].(valid := after[i].valid)
         && (after[i].valid <==> before[i].valid && !hit(before[i]))
  }

  predicate MatchesTaskId(t: Task, taskId: nat)
  {
    t.id == taskId || t.parentId == taskId
  }

  /** `invalidateTask`: for content-manager tasks, the current task and every
      queued task whose ID or parent ID is `taskId` become invalid; tasks of
      the task processor are handled outside this scheduler. */
  function InvalidateTask(s: State, taskId: nat, owner: TaskOwner): (r: State)
    ensures owner == TaskProcessorTask ==> r == s
    ensures r.nextId == s.nextId
    ensures owner == ContentManagerTask ==>
              && ClearedWhere(s.normal, r.normal, t => MatchesTaskId(t, taskId))
              && ClearedWhere(s.low, r.low, t => MatchesTaskId(t, taskId))
              && ClearedWhere(CurrentSeq(s), CurrentSeq(r), t => MatchesTaskId(t, taskId))
  {
    if owner == ContentManagerTask then
      var cur := if s.current.Some? then Some(InvalidateIfMatches(s.current.value, taskId)) else None;
      s.(normal := InvalidateMatching(s.normal, taskId), low := InvalidateMatching(s.low, taskId), current := cur)
    else
      s
  }

  predicate IsAddTaskUnder(t: Task, path: string)
  {
    t.kind.AddFileTask? && StartsWith(t.kind.path, path)
  }

  function InvalidateAddTaskIfUnder(t: Task, path: string): Task
  {
    if IsAddTaskUnder(t, path) then t.(valid := false) else t
  }

  function InvalidateAddUnder(ts: seq<Task>, path: string): seq<Task>
  {
    seq(|ts|, i requires 0 <= i < |ts| => InvalidateAddTaskIfUnder(ts[i], path))
  }

  /** `invalidateAddTask` applied, as the asynchronous `removeObject` does, to
      both queues and the current task: every add-file task whose path starts
      with `path` (a plain string prefix) becomes invalid. */
  function InvalidateAddTasks(s: State, path: string): (r: State)
    ensures r.nextId == s.nextId
    ensures ClearedWhere(s.normal, r.normal, t => IsAddTaskUnder(t, path))
    ensures ClearedWhere(s.low, r.low, t => IsAddTaskUnder(t, path))
    ensures ClearedWhere(CurrentSeq(s), CurrentSeq(r), t => IsAddTaskUnder(t, path))
  {
    var cur := if s.current.Some? then Some(InvalidateAddTaskIfUnder(s.current.value, path)) else None;
    s.(normal := InvalidateAddUnder(s.normal, path), low := InvalidateAddUnder(s.low, path), current := cur)
  }

  /* ---------------------------------------------------------------- */
  /* Properties                                                        */
  /* ---------------------------------------------------------------- */

  lemma InitialWf()
    ensures Wf(Initial())
    ensures Drain(Initial()) == []
  {
  }

  /** `addTask` hands out the counter value, which no known task holds and
      which exceeds every ID handed out before; the task lands at the back of
      the queue its priority selects, the other queue and the current task are
      untouched, and the scheduler invariant survives while the counter has
      not wrapped. */
  lemma AddTaskFreshAndOrdered(s: State, t: Task, lowPriority: bool)
    requires Wf(s)
    requires s.nextId + 1 < TaskIdBound
    ensures var r := AddTask(s, t, lowPriority);
      && Wf(r)
      && r.nextId == s.nextId + 1
      && (forall u :: u in AllTasks(s) ==> u.id < s.nextId)
      && (if lowPriority then r.low == s.low + [t.(id := s.nextId)] && r.normal == s.normal
          else r.normal == s.normal + [t.(id := s.nextId)] && r.low == s.low)
      && r.current == s.current
  {
    var n := t.(id := s.nextId);
    var cur := CurrentSeq(s);
    forall u | u in AllTasks(s)
      ensures u.id < s.nextId
    {
      assert u in s.normal || u in s.low || u in cur;
    }
    RangeGrows(s.normal, s.nextId);
    RangeGrows(s.low, s.nextId);
    RangeGrows(cur, s.nextId);
    if lowPriority {
      AppendFresh(s.low, n, s.nextId);
      DisjointFromFresh(s.normal, s.low, n, s.nextId);
      DisjointFromFresh(cur, s.low, n, s.nextId);
      DisjointSymmetric(cur, s.low + [n]);
    } else {
      AppendFresh(s.normal, n, s.nextId);
      DisjointFromFresh(s.low, s.normal, n, s.nextId);
      DisjointSymmetric(s.low, s.normal + [n]);
      DisjointFromFresh(cur, s.normal, n, s.nextId);
      DisjointSymmetric(cur, s.normal + [n]);
    }
  }

  lemma RangeGrows(q: seq<Task>, bound: nat)
    requires IdsInRange(q, bound)
    ensures IdsInRange(q, bound + 1)
  {
  }

  lemma AppendFresh(q: seq<Task>, n: Task, bound: nat)
    requires IdsInRange(q, bound) && IdsIncreasing(q)
    requires FirstTaskId <= n.id == bound
    ensures IdsInRange(q + [n], bound + 1) && IdsIncreasing(q + [n])
  {
  }

  lemma DisjointFromFresh(a: seq<Task>, q: seq<Task>, n: Task, bound: nat)
    requires IdsInRange(a, bound) && IdsDisjoint(a, q) && n.id == bound
    ensures IdsDisjoint(a, q + [n])
  {
  }

  lemma DisjointSymmetric(a: seq<Task>, b: seq<Task>)
    requires IdsDisjoint(a, b)
    ensures IdsDisjoint(b, a)
  {
  }

  /** Taking the front of a queue leaves an ordered queue none of whose IDs
      is the taken task's, and moves nothing out of range. */
  lemma PopFront(q: seq<Task>, bound: nat)
    requires |q| > 0 && IdsInRange(q, bound) && IdsIncreasing(q)
    ensures IdsInRange(q[1..], bound) && IdsIncreasing(q[1..])
    ensures IdsInRange([q[0]], bound) && IdsDisjoint(q[1..], [q[0]])
  {
    assert forall i :: 0 <= i < |q[1..]| ==> q[1..][i] == q[i + 1];
  }

  lemma DisjointFromFront(q: seq<Task>, other: seq<Task>)
    requires |q| > 0 && IdsDisjoint(q, other)
    ensures IdsDisjoint(q[1..], other) && IdsDisjoint(other, [q[0]])
  {
    assert forall i :: 0 <= i < |q[1..]| ==> q[1..][i] == q[i + 1];
  }

  /** One worker step keeps the scheduler invariant. */
  lemma WorkerStepWf(s: State)
    requires Wf(s)
    ensures Wf(WorkerStep(s).0)
  {
    var r := WorkerStep(s).0;
    if |s.normal| > 0 {
      PopFront(s.normal, s.nextId);
      DisjointFromFront(s.normal, s.low);
      assert CurrentSeq(r) == [s.normal[0]];
    } else if |s.low| > 0 {
      PopFront(s.low, s.nextId);
      DisjointFromFront(s.low, s.normal);
      DisjointSymmetric(s.normal, s.low);
      DisjointFromFront(s.low, s.normal);
      assert CurrentSeq(r) == [s.low[0]];
    } else {
      assert CurrentSeq(r) == [];
    }
  }

  /** With no new work arriving, the worker takes every queued task exactly
      once: the whole normal queue front to back, then the whole low queue
      front to back; and it runs precisely the tasks that are still valid. */
  lemma {:induction false} DrainOrder(s: State)
    ensures |Drain(s)| == |s.normal| + |s.low|
    ensures forall i :: 0 <= i < |Drain(s)| ==>
              && !Drain(s)[i].Idle?
              && Drain(s)[i].task == (s.normal + s.low)[i]
              && (Drain(s)[i].Ran? <==> (s.normal + s.low)[i].valid)
    decreases |s.normal| + |s.low|
  {
    var (s', o) := WorkerStep(s);
    if !o.Idle? {
      DrainOrder(s');
      assert Drain(s) == [o] + Drain(s');
      if |s.normal| > 0 {
        assert s.normal + s.low == [s.normal[0]] + (s'.normal + s'.low);
      } else {
        assert s.normal + s.low == [s.low[0]] + (s'.normal + s'.low);
      }
    }
  }

  /** Once `invalidateTask(id)` has been applied, the worker never runs a
      queued task whose ID or parent ID is `id`; every other queued task runs
      exactly when it would have run before. */
  lemma InvalidatedTasksNeverRun(s: State, taskId: nat)
    ensures var d := Drain(InvalidateTask(s, taskId, ContentManagerTask));
      && |d| == |s.normal| + |s.low|
      && forall i :: 0 <= i < |d| ==>
           (d[i].Ran? <==> (s.normal + s.low)[i].valid && !MatchesTaskId((s.normal + s.low)[i], taskId))
  {
    var r := InvalidateTask(s, taskId, ContentManagerTask);
    DrainOrder(r);
    var d := Drain(r);
    forall i | 0 <= i < |d|
      ensures d[i].Ran? <==> (s.normal + s.low)[i].valid && !MatchesTaskId((s.normal + s.low)[i], taskId)
    {
      if i < |s.normal| {
        assert (r.normal + r.low)[i] == r.normal[i];
        assert (s.normal + s.low)[i] == s.normal[i];
      } else {
        assert (r.normal + r.low)[i] == r.low[i - |s.normal|];
        assert (s.normal + s.low)[i] == s.low[i - |s.normal|];
      }
    }
  }

  /** Clearing validity flags keeps every ID where it was, so it keeps the
      scheduler invariant. */
  lemma ClearedKeepsWf(s: State, r: State, hit: Task -> bool)
    requires Wf(s) && r.nextId == s.nextId
    requires ClearedWhere(s.normal, r.normal, hit)
    requires ClearedWhere(s.low, r.low, hit)
    requires ClearedWhere(CurrentSeq(s), CurrentSeq(r), hit)
    ensures Wf(r)
  {
    assert forall i :: 0 <= i < |r.normal| ==> r.normal[i].id == s.normal[i].id;
    assert forall i :: 0 <= i < |r.low| ==> r.low[i].id == s.low[i].id;
    assert forall i :: 0 <= i < |CurrentSeq(r)| ==> CurrentSeq(r)[i].id == CurrentSeq(s)[i].id;
  }

  /** `invalidateTask` keeps the scheduler invariant. */
  lemma InvalidateTaskWf(s: State, taskId: nat, owner: TaskOwner)
    requires Wf(s)
    ensures Wf(InvalidateTask(s, taskId, owner))
  {
    if owner == ContentManagerTask {
      ClearedKeepsWf(s, InvalidateTask(s, taskId, owner), t => MatchesTaskId(t, taskId));
    }
  }

  /** `invalidateAddTask` keeps the scheduler invariant. */
  lemma InvalidateAddTasksWf(s: State, path: string)
    requires Wf(s)
    ensures Wf(InvalidateAddTasks(s, path))
  {
    ClearedKeepsWf(s, InvalidateAddTasks(s, path), t => IsAddTaskUnder(t, path));
  }

  /** Once `invalidateAddTask(path)` has been applied, the worker never runs
      a queued add-file task whose path starts with `path`; every other
      queued task runs exactly when it would have run before. */
  lemma AddTasksUnderPathNeverRun(s: State, path: string)
    ensures var d := Drain(InvalidateAddTasks(s, path));
      && |d| == |s.normal| + |s.low|
      && forall i :: 0 <= i < |d| ==>
           (d[i].Ran? <==> (s.normal + s.low)[i].valid && !IsAddTaskUnder((s.normal + s.low)[i], path))
  {
    var r := InvalidateAddTasks(s, path);
    DrainOrder(r);
    var d := Drain(r);
    forall i | 0 <= i < |d|
      ensures d[i].Ran? <==> (s.normal + s.low)[i].valid && !IsAddTaskUnder((s.normal + s.low)[i], path)
    {
      if i < |s.normal| {
        assert (r.normal + r.low)[i] == r.normal[i];
        assert (s.normal + s.low)[i] == s.normal[i];
      } else {
        assert (r.normal + r.low)[i] == r.low[i - |s.normal|];
        assert (s.normal + s.low)[i] == s.low[i - |s.normal|];
      }
    }
  }

  /** Priority across enqueue order: after a low-priority task `t` and then a
      normal task `u` are added, the worker next takes the normal queue's
      front, which is `u` itself when no normal work was waiting; the
      earlier low-priority task waits either way. */
  lemma NormalQueueFirst(s: State, t: Task, u: Task)
    ensures var s2 := AddTask(AddTask(s, t, true), u, false);
      && !WorkerStep(s2).1.Idle?
      && WorkerStep(s2).1.task == (if |s.normal| > 0 then s.normal[0] else u.(id := (s.nextId + 1) % TaskIdBound))
      && WorkerStep(s2).0.low == s.low + [t.(id := s.nextId)]
  {
  }
}
