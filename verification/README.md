# Gerbera content manager core, modelled in Dafny

This project models the part of Gerbera's content manager that decides what
happens to the media library, and proves properties of that model. Gerbera is
a UPnP media server.

- **Task scheduler** (`scheduler.dfy`). This is the background task
  scheduler. It has a normal-priority FIFO and a low-priority FIFO, a
  task-ID counter that starts at 1 and wraps around at 2^32, and the worker
  loop of `threadProc`. That loop takes normal work first and skips tasks
  that have been invalidated. Invalidation comes in two forms. By task ID
  (`invalidateTask`), a task is hit when its own ID or its parent ID
  matches. By path (`invalidateAddTask`, as the asynchronous `removeObject`
  applies it), every add-file task whose path starts with the removed path
  is hit.
- **Timer tick** (`autoscan_timer.dfy`). This is `timerNotify` for
  timed-autoscan directories, together with the `rescanDirectory` call that
  queues a low-priority, parentless rescan task and counts it on the
  directory.
- **Directory rescan** (`rescan.dfy`, `rescan_properties.dfy`). This is the
  incremental rescan of one directory (`_rescanDirectory`) and the
  `finishScan` commit that ends it. The rescan works against a watermark:
  the newest modification time it has accounted for so far.
  - It skips hidden entries.
  - It removes stored symlinks when links are not followed.
  - It adds new files.
  - It removes and re-adds a stored file whose mtime is newer than the
    watermark read at the start.
  - It queues a rescan for each known subdirectory and a recursive add for
    each new one.
  - It raises the watermark as it goes.
  - It stops on shutdown, on task invalidation or on loss of the autoscan
    registration.
  - When it completes without interruption, it batch-removes the store's
    children it did not strike. A child is struck when the loop meets it as
    a stored link it skips, a stored regular file or a stored directory it
    recurses into; a stored hidden entry it passes over is not struck.
- **Containers** (`containers.dfy`, `container_properties.dfy`). This covers
  three pieces:
  - the container path cache of `addContainerChain`: layout mapping,
    metadata inheritance, a cache hit versus a store call, and the caching
    of created containers;
  - the equality-gated container edit of `updateCdsObject<CdsContainer>`;
  - the guards of `_removeObject`, the operation that clears the cache.
- **Last-played list** (`play_hook.dfy`). This is the list kept by the play
  hook: the parent container moves to the front, and the list is capped at
  five entries.
- **Samsung quirks** (`quirks.dfy`). These are the bookmark save/restore
  arithmetic (a ten-second rewind, seconds versus milliseconds, and the
  decimal text round trip) and the caption-header lookup.

Threads, locks and condition variables are replaced by pure state
transitions. The store, the filesystem, the clock and the configuration
become values or function parameters:

- the layout mapping is a `string -> string` function;
- `IS_FORBIDDEN_CDS_ID` is an `int -> bool` function;
- file readability is a `string -> bool` function;
- the store's path index is a map;
- a directory listing is a sequence of entries.

Flags raised by other threads are modelled in `Interrupts`. Shutdown and
task invalidation are one flag; loss of the autoscan registration is
another. Each flag is given as the first moment from which the rescan loop
sees it, and it stays raised from then on.

`common.dfy` holds the shared `Option`/`Result` types, a string prefix test,
C++ truncating division and an occurrence count.

## Model

| member | source | states |
|---|---|---|
| Scheduler.InitialWf | src/content/content_manager.cc:85 | The scheduler starts with the counter at 1, both queues empty and nothing in flight, so the invariant holds and the worker has nothing to do. |
| Scheduler.AddTaskFreshAndOrdered | src/content/content_manager.cc:1399-1410 | `addTask` stamps the task with the counter value. No queued or running task holds that value, and it exceeds every ID handed out before. The task lands at the back of the queue its priority selects, and the other queue and the running task are untouched. The invariant is kept: IDs in range, each queue in ID order, no ID held twice. This holds while the 32-bit counter has not wrapped. |
| Scheduler.WorkerStep | src/content/content_manager.cc:1345-1390 | One turn of the worker loop. It takes the front of the normal queue, and takes from the low queue only when the normal queue is empty. The task taken becomes current. It runs only if it is valid and is skipped otherwise. The worker idles exactly when both queues are empty. An idle turn only clears the current slot and leaves both queues and the counter as they were. |
| Scheduler.WorkerStepWf | src/content/content_manager.cc:1345-1364 | A worker turn keeps the scheduler invariant. |
| Scheduler.DrainOrder | src/content/content_manager.cc:1345-1390 | With no new work, the worker takes every queued task exactly once: the whole normal queue in order, then the whole low queue in order. It runs exactly those tasks that are valid. |
| Scheduler.NormalQueueFirst | src/content/content_manager.cc:1353-1359 | After a low-priority task and then a normal task are added, the worker next takes the normal queue's front. That front is the new normal task when no normal work was waiting, and the earlier low-priority task stays queued either way. |
| Scheduler.InvalidateTask | src/content/content_manager.cc:1502-1529 | For content-manager tasks, the running task and every queued task invalidate exactly when their ID or parent ID is the given ID. Nothing else about any task changes. Task-processor tasks leave this scheduler untouched. |
| Scheduler.InvalidatedTasksNeverRun | src/content/content_manager.cc:1502-1529 | After `invalidateTask(id)`, draining the queues never runs a task whose ID or parent ID is `id`. Every other task runs exactly when it would have run before. |
| Scheduler.InvalidateTaskWf | src/content/content_manager.cc:1502-1529 | `invalidateTask` keeps the scheduler invariant: it changes only validity flags, so every ID, each queue's order and which queue holds which task stay as they were. |
| Scheduler.InvalidateAddTasks | src/content/content_manager.cc:1490-1500 | In both queues and for the running task, an add-file task becomes invalid exactly when its path starts with the removed path. All other tasks, and all other fields, are unchanged. |
| Scheduler.InvalidateAddTasksWf | src/content/content_manager.cc:1490-1500 | `invalidateAddTask` keeps the scheduler invariant: it changes only validity flags. |
| Scheduler.AddTasksUnderPathNeverRun | src/content/content_manager.cc:1490-1500 | After `invalidateAddTask(path)`, draining the queues never runs an add-file task whose path starts with `path`. Every other task runs exactly when it would have run before. |
| AutoscanTimer.RescanDirectory | src/content/content_manager.cc:1596-1608 | The directory's task count goes up by one. One valid, parentless task that rescans the directory's container, with the caller's cancellable flag, is appended to the low-priority queue. It gets the current counter value, and the counter advances by one modulo 2^32. The normal queue, the running task and every other directory are unchanged. |
| AutoscanTimer.TimerNotify | src/content/content_manager.cc:278-291 | A tick queues a rescan only for a registered timed-autoscan directory with no active scan and no queued task. A null parameter, an unknown directory or a busy directory leaves the manager unchanged. When a rescan starts, exactly one thing is queued: a valid, parentless, cancellable task that rescans the directory's own container, appended to the low-priority queue with the current counter value. The counter advances by one modulo 2^32, that directory's task count goes up by one, and the normal queue, the running task and every other directory are unchanged. |
| AutoscanTimer.SecondTickIsNoOp | src/content/content_manager.cc:283-290 | A second tick for the same directory, before its queued rescan has run, changes nothing: no overlapping timed rescans. |
| Rescan.FinishScan | src/content/content_manager.cc:893-903 | The stored watermark is the scan's watermark when that is positive, and exactly 1 otherwise. The parent container is touched, with that watermark, exactly when there is a parent and the watermark is positive. |
| Rescan.ExamineEntry | src/content/content_manager.cc:680-779 | One pass of the loop body. The loop leaves at an entry exactly when the entry is not hidden and shutdown or invalidation, lost registration, or (for a new subdirectory) lost registration at the second check is seen. An abort is reported exactly when the first of these holds. Otherwise the entry's reference actions, removal-candidate strikes and watermark rise are applied. A scan that leaves at the second lost check still counts the directory's mtime in the watermark. |
| Rescan.ScanEntries | src/content/content_manager.cc:676-780 | The loop gets through a prefix of the listing and leaves only at an entry where it halts. On that prefix, its actions, the removal candidates left and the new watermark equal the reference definitions. It completes exactly when it got through the whole listing. |
| Rescan.RescanDirectory | src/content/content_manager.cc:676-794 | The whole scan from the loop on, with store and layout calls that do not throw. The commit is always `finishScan` of the watermark reached, whichever way the loop ended. The candidates not struck (not met as a stored link, regular file or recursed directory) are batch-removed exactly when the scan completed, was not aborted afterwards, and left some. |
| RescanProperties.WatermarkIsMaximum | src/content/content_manager.cc:676-744 | The new watermark is at least the start watermark. It is at least the mtime of every new or changed file and every recursed directory. It is either the start value or one of those mtimes. |
| RescanProperties.CommittedNeverRegresses | src/content/content_manager.cc:676-782 | The watermark committed after a scan is at least the one read at its start, and at least 1. |
| RescanProperties.ReAddExactlyWhenChanged | src/content/content_manager.cc:715-732 | A stored file is removed and re-added if and only if the listing holds it as a regular file whose mtime is strictly newer than the start watermark. |
| RescanProperties.NewFileAlwaysAdded | src/content/content_manager.cc:733-740 | A file is added if and only if the listing holds it as a regular file with no stored object. |
| RescanProperties.StruckExactlyWhenSeen | src/content/content_manager.cc:698-750 | An object ID leaves the removal candidates if and only if a non-hidden stored entry with that ID was met as a skipped link, a regular file or a recursed directory. |
| RescanProperties.SpawnedAddsNameTheScanTask | src/content/content_manager.cc:768-773 | Every recursive add the scan queues carries the scan task's ID as its parent and the scan task's cancellability, so invalidating the scan task reaches all of them. |
| RescanProperties.AbortedScanCanHideChange | src/content/content_manager.cc:676-782 | A concrete scan: the loop gets through a new file with mtime 100 and is aborted at the next entry, a stored file changed at mtime 50 after the start watermark 10. The committed watermark is 100, and a later scan that starts from the committed watermark does not re-add the changed file. |
| RescanProperties.SecondScanAddsNothing | src/content/content_manager.cc:715-740 | Rescanning an unchanged directory from the watermark the first scan reached, with every file stored, adds and re-adds nothing. |
| Containers.InheritedMetadata | src/content/content_manager.cc:1109-1122 | A new container inherits the object's metadata with the album artist falling back to the artist. Description, title, track number and artist are dropped. Every other field is kept as it was. |
| Containers.LastSegment | src/content/content_manager.cc:1127 | The title of the chain's last container: a suffix of the chain that contains no `/`, preceded by a `/` unless it is the whole chain. |
| Containers.AddContainerChain | src/content/content_manager.cc:1095-1148 | An empty chain is an error. The cache is keyed by the chain after the layout mapping. On a hit, the cached ID is returned with no store call, no cache change and no change notification. On a miss, the store is asked to create the mapped chain with the given class and ref ID. The metadata sent is the inherited metadata, titled after the chain's last segment. The result is new, and every container the store created is cached under its location with its own ID (the later one when two share a location), while every other cached entry keeps its value. The last created container is announced as changed, and nothing is announced when nothing was created. |
| ContainerProperties.SecondRequestHitsCache | src/content/content_manager.cc:1124-1141 | When the store reports the chain's last container among those it created, a second request for the same chain is a cache hit. It returns the same container, is not new, and makes no store call. Without that report the second request misses again; see `ContainerProperties.ExistingChainNeverCached`. |
| ContainerProperties.ExistingChainNeverCached | src/content/content_manager.cc:1124-1136 | A chain the store already holds is never cached. When the store creates nothing, the cache is unchanged, so the next request for the same chain misses again. It sends the same store request and is again reported as new. |
| Containers.UpdateContainer | src/content/content_manager.cc:921-947 | A container is written exactly when a non-empty `title` or `class` parameter differs from the current value. The written copy has those fields replaced and every other field unchanged. |
| ContainerProperties.UpdateContainerIdempotent | src/content/content_manager.cc:938-946 | Repeating an edit on the container it produced writes nothing. |
| ContainerProperties.EmptyTitleWritesNothing | src/content/content_manager.cc:923-934 | An edit whose only parameter is an empty title writes nothing. |
| Containers.RemoveObject | src/content/content_manager.cc:530-560 | Removing the root, the filesystem root or a forbidden ID is refused before anything changes. With a resource rescan requested, an object the store no longer holds fails to load, also before anything changes. Any other removal clears the container cache. It then removes the object, with the requested `all` flag, unless refreshing the object's caption resources already removed its parent. |
| ContainerProperties.RemovalForcesChainRebuild | src/content/content_manager.cc:545-547 | After a successful removal, the next chain request of any kind misses the cache and goes to the store. |
| PlayHook.EraseFirstCutsFirstOccurrence | src/content/playhook_handler.cc:15-21 | `find` followed by `erase` removes exactly the first occurrence, keeping the other elements in order, or leaves the list unchanged when the element is absent. |
| PlayHook.EraseFirstKeepsNoDuplicates | src/content/playhook_handler.cc:15-21 | On a repeat-free list, erasing leaves a repeat-free list without the element. |
| PlayHook.ParentAtFront | src/content/playhook_handler.cc:13-22 | Afterwards the played object's parent is at the front of the list. The list recorded for the trigger call is the list before the update, which holds by construction. |
| PlayHook.MoveToFrontShape | src/content/playhook_handler.cc:15-28 | The new list is the parent followed by the old list with the parent erased, in the old order. Its last element is dropped exactly when the list grew past five. |
| PlayHook.LengthBounds | src/content/playhook_handler.cc:15-28 | A list within the limit stays within it. Replaying a listed parent keeps the length. A new parent on a short list adds one entry. |
| PlayHook.NoDuplicatesPreserved | src/content/playhook_handler.cc:15-28 | A repeat-free list stays repeat-free, and the parent occurs exactly once. |
| Quirks.DecimalRoundTrip | src/util/upnp_quirks.cc:102 | Writing a number as decimal text and reading it back yields the number. |
| Quirks.RestoreRewindsTenSeconds | src/util/upnp_quirks.cc:82-88 | A restored position is rewound by exactly ten seconds past the first ten and left as is within them. It never goes past the saved position, and never below zero for a non-negative one. A millisecond client gets the same answer times 1000. |
| Quirks.RestoreBookmark | src/util/upnp_quirks.cc:78-92 | Only a client with a bookmark flag gets a `dcmInfo` value. The value starts with `CREATIONDATE=0,FOLDER=`, then the title, then `,BM=`. What follows that prefix is exactly the decimal text of the restored position, so it reads back as that position. |
| Quirks.SaveBookmark | src/util/upnp_quirks.cc:94-115 | Only a client with a bookmark flag asks for an object update, and the update passes only the `bookmarkpos` parameter. Its value is the decimal text of the reported position divided, truncating, by 1000 for millisecond clients and by 1 otherwise, and reads back as that number. The response is set exactly when the client has no bookmark flag or the store holds the object: `updateObject` loads the object without catching a failed load (`content_manager.cc:1011`), so a save for a missing object leaves before the response. |
| Quirks.SaveThenRestoreMillis | src/util/upnp_quirks.cc:78-115 | For a millisecond client, saving `s` seconds and `ms` milliseconds (with `s > 10`) stores `s`, and restoring gives back `(s - 10) * 1000`. |
| Quirks.FirstReadableIsFirst | src/util/upnp_quirks.cc:56-71 | The caption-file search returns the first extension whose file is readable; every earlier extension's file is unreadable. It finds nothing exactly when no extension's file is readable. |
| Quirks.CaptionInfo | src/util/upnp_quirks.cc:46-76 | Only Samsung clients playing video get a `CaptionInfo.sec` header. When the item has a subtitle, the header points at it. Otherwise it points at the first readable caption file among `.srt`, `.ssa`, `.smi` and `.sub`, and there is no header when none is readable. |

## Behaviour worth knowing

Each item states what a reader might expect, then what the code does. The model follows the code.

- **Unchanged stored files.** One might expect a stored file to be struck from the removal candidates only when the scan leaves it alone. The code strikes every stored regular file it meets, changed or not (`content_manager.cc:716-720`).
- **Touching the parent container.** One might expect the parent container to be touched only when the watermark advanced. `finishScan` touches it whenever the watermark is positive (`content_manager.cc:897-898`), even when the watermark equals the start value.
- **Priority of new subdirectories.** One might expect new subdirectories to be added ahead of other background work. The code queues their recursive add as ordinary low-priority work (`content_manager.cc:773`).
- **Second scans.** One might expect a second scan of an unchanged directory to do nothing. In the code it still queues a rescan for every known subdirectory. `RescanProperties.SecondScanAddsNothing` therefore states only that nothing is added or re-added.
- **Aborted scans.** One might expect a later scan to pick up every change an aborted scan did not reach, because the committed watermark never falls. The code commits the watermark of the entries the loop got through, even after an abort (`content_manager.cc:687-688`, `782`). A changed file later in the listing whose mtime lies below that watermark is not re-added by a later scan that starts from the committed watermark, since the re-add test (`content_manager.cc:722`) compares against the watermark read at the start. `RescanProperties.AbortedScanCanHideChange` gives such a scan.
- **Invalidating a scan task.** One might expect invalidating a scan task to reach all the work it spawned. Only the recursive adds for new subdirectories carry the scan task's ID as their parent (`content_manager.cc:773`). The rescans it queues for known subdirectories go through `rescanDirectory` (`content_manager.cc:750`, `1596-1608`), which sets no parent, so invalidating the scan task does not reach them.
- **Hidden files turned off.** One might expect turning hidden files off to leave stored dot-files alone. The loop passes over a hidden entry before it strikes anything (`content_manager.cc:683-685`), so the next completed rescan batch-removes every stored dot-file of the directory along with the children it did not meet. `RescanProperties.StruckExactlyWhenSeen` states the strike rule this follows from.
- **Chains the store already holds.** One might expect the container path cache to spare the store every repeated chain request. `addContainerChain` caches only the containers the store reports as newly created (`content_manager.cc:1130-1133`). A chain that already exists in the store is therefore never cached, and every request for it reaches the store. This applies to every chain after the cache is cleared by a removal (`content_manager.cc:549`), and to every chain on a fresh start over a persisted store. `ContainerProperties.ExistingChainNeverCached` states this.

## Left out

- The part of `_rescanDirectory` before the loop is not modelled. That part resolves the container and the autoscan location, handles a missing directory and persists the autoscan entry. The model starts after the watermark has been read and the store's child list fetched. Resetting the current watermark to 0 before the loop is not modelled either.
- The watermark bookkeeping of `AutoscanDirectory` is not modelled. That class is not part of this model. A scan's start watermark (`getPreviousLMT`, `content_manager.cc:676`) is a parameter. Statements about a later scan assume it starts from the watermark the previous scan committed (`setCurrentLMT`, `content_manager.cc:896`). The promotion of that value in `updateLMT` after `decTaskCount` (`content_manager.cc:1892-1893`), and the other writers of the same bookkeeping, are not modelled.
- A scan's options are constant in the model. The source re-reads recursive, hidden and follow-symlinks from the configuration for every entry.
- `ec`-reported read errors are not modelled. These are filesystem errors that are only logged.
- A scan without a task is not modelled. That is the path where `task` is null and the parent task ID is 0. The model always has a task, because a queued rescan always has one.
- `addRecursive`, `addFileInternal`, `updateAttachedResources` and the item layout are not modelled. Their effects appear only as the actions the loop asks for. `updateAttachedResources`'s answer is the `parentRemoved` parameter.
- `getTasklist`, `updateCdsObject<CdsItem>`, `assignFanArt`, online services and the task processor are not modelled. They are outside the scheduling, rescan and container core covered here.
- Threads, locks, shutdown and the condition-variable wake-up are not modelled. The worker loop is a pure step, and a shutdown is an interrupt moment of the rescan loop.
- The layout mapping is not modelled as regular expressions. It is an arbitrary function from chain to chain, because `std::regex_replace` over the configured dictionary is out of scope.
- The textual form of a virtual URL is not modelled. Caption URLs keep their parts (virtual URL, item ID, file name) instead of the joined string.
- `splitString(chain, '/').back()` is modelled as the text after the last `/`.
- `timerNotify` calls `rescanDirectory` with the default arguments, which are declared in `content_manager.h`. That header is not part of this model. The timer's rescan is taken to be cancellable.
- The task counter and task IDs are taken to be 32-bit `unsigned int` values, as the task-ID parameters of `invalidateTask` and `addFileInternal` are declared in `content_manager.cc` (`1426`, `1502`). The counter's own declaration is in `content_manager.h`, which is not part of this model.
- `CDS_ID_ROOT`, `CDS_ID_FS_ROOT` and `INVALID_OBJECT_ID` come from headers that are not part of this model. They are taken as 0, 1 and -1. `IS_FORBIDDEN_CDS_ID` is a parameter.
- The metadata field names (`upnp:albumArtist`, `upnp:artist`, `dc:description`, `dc:title`, `upnp:originalTrackNumber`) come from the metadata handler, which is not part of this model.
- A client's quirk bits are not modelled as bits. They are three booleans: Samsung, bookmark seconds and bookmark milliseconds.
- Quirks.RestoreBookmark: the 32-bit overflow of `positionToRestore * 1000` for very large positions is not modelled; positions are unbounded integers.
- Quirks.SaveBookmark: `stoiString` is modelled only on the decimal text `std::to_string` writes. Malformed text and out-of-range values, which throw in C++, are not modelled.
- Scheduler.AddTaskFreshAndOrdered: freshness is stated only while the 32-bit counter has not wrapped. The wrap itself is written out in `AddTask`, and after it IDs can repeat.
- Scheduler.InvalidateAddTasks: the path test is a plain string prefix, as `startswith` in the source. A sibling directory whose name extends the removed one is hit too. This is modelled as written. The model also does not restrict invalidation to container removals, which is the caller's condition.
- Rescan.RescanDirectory: the loop's inline `removeObject` and `addFileInternal` calls (`content_manager.cc:725`, `728`, `737`) are taken to succeed. If one throws, the source leaves `_rescanDirectory` before `finishScan` and before the batch removal. `CMRescanDirectoryTask::run` then skips `decTaskCount` (`content_manager.cc:1891-1892`), and every later timer tick for that directory is refused. The model's actions never fail.
- Containers.RemoveObject: the store's set of changed containers (`content_manager.cc:550-555`) and its forwarding to the update and session managers are not modelled. The model records only the removal asked of the store.
- Containers.UpdateContainer: the change notifications for the updated container and its parent (`content_manager.cc:941-945`) are not modelled. The first of them names an ID the store decides. The model returns only the written copy.
- Quirks.SaveBookmark: the update is applied by `updateCdsObject<CdsItem>`, which is not part of this model. There an empty `description` parameter removes the item's description (`content_manager.cc:991-995`), so every bookmark save also strips `dc:description` from the item. The model states only the parameter the save passes.
- AutoscanTimer.TimerNotify: online-content ticks are not modelled. They exist only in builds with online services. In those builds the tick calls `fetchOnlineContent` (`content_manager.cc:294`), which queues a task and advances the task counter.
- `process_executor.cc`, `matroska_handler.h` and `playhook_handler.h` are not modelled, because they hold no logic of this core.
