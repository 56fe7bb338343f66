/** The incremental rescan of one directory (`_rescanDirectory`) and the
    watermark commit that ends it (`finishScan`).

    The directory listing is a sequence of entries in enumeration order, the
    store's path lookup is a map from path to object ID, and the store's child
    list for the container is the removal-candidate set. Everything the loop
    asks the store or the layout to do is returned as a list of actions.

    Shutdown, task invalidation and loss of the autoscan registration happen
    on other threads; each is a flag that, once raised, stays raised. They
    are given as the first moment from which the loop sees them: the checks at
    the top of entry `i` happen at moment `2 * i`, the second check for lost
    registration (before queuing a new subdirectory) at `2 * i + 1`, and the
    check after the loop at `2 * |entries|`. */
module Rescan {
  import opened Common

  const InvalidObjectId: int := -1

  /** What an entry refers to; for a symbolic link, the kind of its target. */
  datatype EntryKind = RegularFile | Directory | OtherKind

  datatype Entry = Entry(path: string, name: string, isSymlink: bool, kind: EntryKind, mtime: int)

  /** The scan options in force for the directory. */
  datatype Settings = Settings(hidden: bool, followSymlinks: bool, recursive: bool)

  /** The task running the scan: its ID (the parent of the tasks it spawns)
      and whether it may be cancelled. */
  datatype TaskRef = TaskRef(id: nat, cancellable: bool)

  /** Everything a scan reads that does not change while it runs: options,
      the store's path index, the watermark read before the loop, and the task. */
  datatype Scan = Scan(cfg: Settings, store: map<string, int>, start: int, task: TaskRef)

  datatype Interrupts = Interrupts(abortFrom: nat, lostFrom: nat)

  /** What the loop asks of the store, the layout and the scheduler. */
  datatype Action =
    | RemoveLink(objectId: int)                            // stored symlink, links not followed
    | AddFile(path: string)                                // new file, added inline
    | ReAddFile(objectId: int, path: string)               // changed file: removed, then added inline
    | RescanSubdir(objectId: int, path: string, cancellable: bool)   // queued low-priority rescan
    | AddSubdir(path: string, parentTaskId: nat, cancellable: bool)  // queued low-priority recursive add

  datatype Status = Completed | Aborted | LostAutoscan

  /** What `finishScan` writes: the directory's new watermark, and the mtime
      given to the parent container (persisted) when there is one to touch. */
  datatype Commit = Commit(lmt: int, parentMtime: Option<int>)

  datatype ScanResult = ScanResult(
    status: Status,
    examined: nat,
    actions: seq<Action>,
    watermark: int,
    leftover: set<int>,
    commit: Commit,
    batchRemoval: Option<set<int>>)

  /* ---------------------------------------------------------------- */
  /* One entry                                                         */
  /* ---------------------------------------------------------------- */

  /** `findObjectIDByPath`. */
  function Lookup(store: map<string, int>, path: string): int
  {
    if path in store then store[path] else InvalidObjectId
  }

  predicate Stored(c: Scan, e: Entry)
  {
    Lookup(c.store, e.path) > 0
  }

  /** Dot-files are passed over unless hidden files are wanted. */
  predicate Hidden(c: Scan, e: Entry)
  {
    |e.name| > 0 && e.name[0] == '.' && !c.cfg.hidden
  }

  /** A symbolic link met while links are not followed. */
  predicate SkippedLink(c: Scan, e: Entry)
  {
    !c.cfg.followSymlinks && e.isSymlink
  }

  predicate IsFile(c: Scan, e: Entry)
  {
    !Hidden(c, e) && !SkippedLink(c, e) && e.kind == RegularFile
  }

  predicate IsRecursedDir(c: Scan, e: Entry)
  {
    !Hidden(c, e) && !SkippedLink(c, e) && e.kind == Directory && c.cfg.recursive
  }

  /** A stored file written after the watermark read at the start of the scan. */
  predicate IsChangedFile(c: Scan, e: Entry)
  {
    IsFile(c, e) && Stored(c, e) && c.start < e.mtime
  }

  /** The actions the loop body takes for one entry it gets through. */
  function EntryActions(c: Scan, e: Entry): seq<Action>
  {
    var id := Lookup(c.store, e.path);
    if Hidden(c, e) then []
    else if SkippedLink(c, e) then (if id > 0 then [RemoveLink(id)] else [])
    else if e.kind == RegularFile then
      if id > 0 then (if c.start < e.mtime then [ReAddFile(id, e.path)] else [])
      else [AddFile(e.path)]
    else if e.kind == Directory && c.cfg.recursive then
      if id > 0 then [RescanSubdir(id, e.path, c.task.cancellable)]
      else [AddSubdir(e.path, c.task.id, c.task.cancellable)]
    else []
  }

  /** Whether the entry's mtime takes part in the new watermark. */
  predicate Raises(c: Scan, e: Entry)
  {
    (IsFile(c, e) && (!Stored(c, e) || c.start < e.mtime)) || IsRecursedDir(c, e)
  }

  /** The stored object IDs the entry strikes from the removal candidates. */
  function EntryStruck(c: Scan, e: Entry): set<int>
  {
    if !Hidden(c, e) && Stored(c, e) && (SkippedLink(c, e) || IsFile(c, e) || IsRecursedDir(c, e))
    then {Lookup(c.store, e.path)} else {}
  }

  /** An entry for which the loop would queue a new recursive add. */
  predicate IsNewSubdir(c: Scan, e: Entry)
  {
    IsRecursedDir(c, e) && !Stored(c, e)
  }

  /** The loop leaves at entry `i`: aborted or lost at the top check, or
      lost at the check before queuing a new subdirectory. */
  predicate StopsAt(c: Scan, irq: Interrupts, e: Entry, i: nat)
  {
    !Hidden(c, e) &&
    (irq.abortFrom <= 2 * i || irq.lostFrom <= 2 * i || (IsNewSubdir(c, e) && irq.lostFrom <= 2 * i + 1))
  }

  /* ---------------------------------------------------------------- */
  /* A prefix of the listing                                           */
  /* ---------------------------------------------------------------- */

  function Actions(c: Scan, es: seq<Entry>): seq<Action>
  {
    if |es| == 0 then [] else Actions(c, es[..|es| - 1]) + EntryActions(c, es[|es| - 1])
  }

  function Struck(c: Scan, es: seq<Entry>): set<int>
  {
    if |es| == 0 then {} else Struck(c, es[..|es| - 1]) + EntryStruck(c, es[|es| - 1])
  }

  /** The start watermark raised by every entry that takes part. */
  function Watermark(c: Scan, es: seq<Entry>): int
  {
    if |es| == 0 then c.start
    else
      var w := Watermark(c, es[..|es| - 1]);
      if Raises(c, es[|es| - 1]) then Max(w, es[|es| - 1].mtime) else w
  }

  /** `finishScan` for a scan with an autoscan directory: store the
      watermark, or 1 when it is not positive, and touch the parent
      container only for a positive watermark. */
  function FinishScan(hasParent: bool, lmt: int): (r: Commit)
    ensures r.lmt >= 1 && r.lmt >= lmt
    ensures lmt > 0 ==> r.lmt == lmt
    ensures lmt <= 0 ==> r.lmt == 1
    ensures r.parentMtime.Some? <==> hasParent && lmt > 0
    ensures r.parentMtime.Some? ==> r.parentMtime.value == r.lmt
  {
    Commit(if lmt > 0 then lmt else 1, if hasParent && lmt > 0 then Some(lmt) else None)
  }

  /* ---------------------------------------------------------------- */
  /* The loop                                                          */
  /* ---------------------------------------------------------------- */

  /** Extending the prefix by one entry adds exactly that entry's effects. */
  lemma PrefixExtends(c: Scan, es: seq<Entry>, i: nat)
    requires i < |es|
    ensures Actions(c, es[..i + 1]) == Actions(c, es[..i]) + EntryActions(c, es[i])
    ensures Struck(c, es[..i + 1]) == Struck(c, es[..i]) + EntryStruck(c, es[i])
    ensures Watermark(c, es[..i + 1])
            == if Raises(c, es[i]) then Max(Watermark(c, es[..i]), es[i].mtime) else Watermark(c, es[..i])
  {
    assert es[..i + 1][..i] == es[..i];
  }

  /** One pass of the loop body of `_rescanDirectory` over entry `e`, the
      `i`-th of the listing: either the loop leaves at this entry (`halt`) or
      the entry's effects are added to the running state. */
  method ExamineEntry(c: Scan, irq: Interrupts, e: Entry, i: nat, actions: seq<Action>, left: set<int>, newMax: int)
    returns (halt: Option<Status>, actions': seq<Action>, left': set<int>, newMax': int)
    ensures halt.None? <==> !StopsAt(c, irq, e, i)
    ensures halt.None? ==> && actions' == actions + EntryActions(c, e)
                           && left' == left - EntryStruck(c, e)
                           && newMax' == (if Raises(c, e) then Max(newMax, e.mtime) else newMax)
    ensures halt.Some? ==> halt.value != Completed && actions' == actions && left' == left
    ensures halt == Some(Aborted) <==> halt.Some? && irq.abortFrom <= 2 * i
    ensures halt.Some? && irq.lostFrom > 2 * i && irq.abortFrom > 2 * i ==> Raises(c, e) && newMax' == Max(newMax, e.mtime)
    ensures halt.Some? && (irq.lostFrom <= 2 * i || irq.abortFrom <= 2 * i) ==> newMax' == newMax
  {
    actions', left', newMax' := actions, left, newMax;
    if |e.name| > 0 && e.name[0] == '.' && !c.cfg.hidden {
      return None, actions', left', newMax';
    }
    if irq.abortFrom <= 2 * i {
      return Some(Aborted), actions', left', newMax';
    }
    if irq.lostFrom <= 2 * i {
      return Some(LostAutoscan), actions', left', newMax';
    }
    var id := Lookup(c.store, e.path);
    if !c.cfg.followSymlinks && e.isSymlink {
      if id > 0 {
        left' := left - {id};
        actions' := actions + [RemoveLink(id)];
      }
    } else if e.kind == RegularFile {
      if id > 0 {
        left' := left - {id};
        if c.start < e.mtime {
          actions' := actions + [ReAddFile(id, e.path)];
          newMax' := Max(newMax, e.mtime);
        }
      } else {
        actions' := actions + [AddFile(e.path)];
        newMax' := Max(newMax, e.mtime);
      }
    } else if e.kind == Directory && c.cfg.recursive {
      newMax' := Max(newMax, e.mtime);
      if id > 0 {
        left' := left - {id};
        actions' := actions + [RescanSubdir(id, e.path, c.task.cancellable)];
      } else {
        if irq.lostFrom <= 2 * i + 1 {
          return Some(LostAutoscan), actions, left, newMax';
        }
        actions' := actions + [AddSubdir(e.path, c.task.id, c.task.cancellable)];
      }
    }
    halt := None;
  }

  /** The loop of `_rescanDirectory`, from the moment the watermark has been
      read (`c.start`) and the store's child list fetched (`candidates`): it
      gets through the entries before `examined` and, unless it completes,
      leaves at entry `examined`. */
  method ScanEntries(c: Scan, entries: seq<Entry>, candidates: set<int>, irq: Interrupts)
    returns (status: Status, examined: nat, actions: seq<Action>, left: set<int>, newMax: int)
    ensures examined <= |entries|
    ensures forall j :: 0 <= j < examined ==> !StopsAt(c, irq, entries[j], j)
    ensures status == Completed <==> examined == |entries|
    ensures status != Completed ==> StopsAt(c, irq, entries[examined], examined)
    ensures status == Aborted <==> status != Completed && irq.abortFrom <= 2 * examined
    ensures actions == Actions(c, entries[..examined])
    ensures left == candidates - Struck(c, entries[..examined])
    ensures status == LostAutoscan && irq.lostFrom > 2 * examined ==> newMax == Watermark(c, entries[..examined + 1])
    ensures !(status == LostAutoscan && irq.lostFrom > 2 * examined) ==> newMax == Watermark(c, entries[..examined])
  {
    actions, left, newMax := [], candidates, c.start;
    examined := 0;
    while examined < |entries|
      invariant examined <= |entries|
      invariant forall j :: 0 <= j < examined ==> !StopsAt(c, irq, entries[j], j)
      invariant actions == Actions(c, entries[..examined])
      invariant left == candidates - Struck(c, entries[..examined])
      invariant newMax == Watermark(c, entries[..examined])
    {
      PrefixExtends(c, entries, examined);
      var halt;
      halt, actions, left, newMax := ExamineEntry(c, irq, entries[examined], examined, actions, left, newMax);
      if halt.Some? {
        return halt.value, examined, actions, left, newMax;
      }
      examined := examined + 1;
    }
    assert entries[..examined] == entries;
    status := Completed;
  }

  /** `_rescanDirectory` from the loop on: the loop, the `finishScan` that
      follows it whichever way it ended, and the batch removal of the
      children never met, done only after a completed scan that has not been
      aborted meanwhile. */
  method RescanDirectory(c: Scan, hasParent: bool, entries: seq<Entry>, candidates: set<int>, irq: Interrupts)
    returns (r: ScanResult)
    ensures r.examined <= |entries|
    ensures forall j :: 0 <= j < r.examined ==> !StopsAt(c, irq, entries[j], j)
    ensures r.status == Completed <==> r.examined == |entries|
    ensures r.status != Completed ==> StopsAt(c, irq, entries[r.examined], r.examined)
    ensures r.status == Aborted <==> r.status != Completed && irq.abortFrom <= 2 * r.examined
    ensures r.actions == Actions(c, entries[..r.examined])
    ensures r.leftover == candidates - Struck(c, entries[..r.examined])
    ensures r.watermark == Watermark(c, entries[..if r.status == LostAutoscan && irq.lostFrom > 2 * r.examined then r.examined + 1 else r.examined])
    ensures r.commit == FinishScan(hasParent, r.watermark)
    ensures r.batchRemoval.Some? <==> r.status == Completed && irq.abortFrom > 2 * |entries| && r.leftover != {}
    ensures r.batchRemoval.Some? ==> r.batchRemoval.value == r.leftover
  {
    var status, examined, actions, left, newMax := ScanEntries(c, entries, candidates, irq);
    var removal := if status == Completed && irq.abortFrom > 2 * |entries| && left != {} then Some(left) else None;
    r := ScanResult(status, examined, actions, newMax, left, FinishScan(hasParent, newMax), removal);
  }
}
