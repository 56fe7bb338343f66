/** The timer side of the autoscan subsystem: `timerNotify` and the queued
    `rescanDirectory` it starts. An autoscan directory is reduced to the
    fields these two read and write; the timed autoscan list becomes a map
    from scan ID to directory. */
module AutoscanTimer {
  import opened Common
  import opened Scheduler

  /** Counter of queued tasks is an `int`: removal sets it to -1. */
  datatype AutoscanDir = AutoscanDir(
    scanId: int,
    objectId: int,
    location: string,
    activeScanCount: nat,
    taskCount: int)

  /** The parameter a timer subscription hands back; `NoParameter` is a null
      pointer. Online-content parameters exist only in builds with online
      services and are not part of this model. */
  datatype TimerParameter =
    | NoParameter
    | AutoscanParameter(id: int)

  datatype Manager = Manager(tasks: Scheduler.State, timed: map<int, AutoscanDir>)

  /** Whether the guard of `timerNotify` lets a timed rescan start. */
  predicate MayStartRescan(m: Manager, id: int)
  {
    id in m.timed && m.timed[id].activeScanCount == 0 && !(m.timed[id].taskCount > 0)
  }

  /** `rescanDirectory`: count one more queued task on the directory and
      enqueue a low-priority rescan task with no parent. */
  function RescanDirectory(m: Manager, id: int, objectId: int, cancellable: bool): (r: Manager)
    requires id in m.timed
    ensures id in r.timed && r.timed[id].taskCount == m.timed[id].taskCount + 1
    ensures r.timed[id] == m.timed[id].(taskCount := r.timed[id].taskCount)
    ensures r.timed.Keys == m.timed.Keys
    ensures forall k :: k in m.timed && k != id ==> r.timed[k] == m.timed[k]
    ensures r.tasks.normal == m.tasks.normal && r.tasks.current == m.tasks.current
    ensures |r.tasks.low| == |m.tasks.low| + 1 && r.tasks.low[..|m.tasks.low|] == m.tasks.low
    ensures var t := r.tasks.low[|m.tasks.low|];
      t.id == m.tasks.nextId && t.parentId == NoParent && t.valid && t.cancellable == cancellable
      && t.kind == RescanTask(m.timed[id].scanId, objectId)
    ensures r.tasks.nextId == (m.tasks.nextId + 1) % TaskIdBound
  {
    var adir := m.timed[id];
    var task := Task(0, NoParent, RescanTask(adir.scanId, objectId), cancellable, true);
    Manager(AddTask(m.tasks, task, true), m.timed[id := adir.(taskCount := adir.taskCount + 1)])
  }

  /** `timerNotify`: a timed-autoscan tick starts a cancellable rescan of the
      directory's container only if the directory is still registered and has
      no active scan and no queued task; anything else leaves the manager as
      it was. */
  function TimerNotify(m: Manager, p: TimerParameter): (r: Manager)
    ensures !(p.AutoscanParameter? && MayStartRescan(m, p.id)) ==> r == m
    ensures p.AutoscanParameter? && MayStartRescan(m, p.id) ==>
      var dir := m.timed[p.id];
      && r.timed == m.timed[p.id := dir.(taskCount := dir.taskCount + 1)]
      && r.tasks.normal == m.tasks.normal
      && r.tasks.current == m.tasks.current
      && r.tasks.low == m.tasks.low + [Task(m.tasks.nextId, NoParent, RescanTask(dir.scanId, dir.objectId), true, true)]
      && r.tasks.nextId == (m.tasks.nextId + 1) % TaskIdBound
  {
    match p
    case AutoscanParameter(id) =>
      if MayStartRescan(m, id) then RescanDirectory(m, id, m.timed[id].objectId, true) else m
    case NoParameter => m
  }

  /** No overlapping timed rescans: once a tick has queued a rescan for a
      directory (whose task counter was not negative), a second tick for the
      same directory, before that task has run, changes nothing. */
  lemma SecondTickIsNoOp(m: Manager, id: int)
    requires MayStartRescan(m, id)
    requires m.timed[id].taskCount >= 0
    ensures var once := TimerNotify(m, AutoscanParameter(id));
      && once != m
      && TimerNotify(once, AutoscanParameter(id)) == once
  {
    var once := TimerNotify(m, AutoscanParameter(id));
    assert |once.tasks.low| != |m.tasks.low|;
  }
}
