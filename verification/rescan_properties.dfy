/** What the rescan loop promises, stated over the listing prefix it got
    through: the watermark rule, the re-add rule, the removal-candidate rule,
    and that a second scan of an unchanged directory adds nothing. */
module RescanProperties {
  import opened Common
  import opened Rescan

  /** The new watermark never falls below the one read at the start, covers
      the mtime of every entry that takes part, and is one of those values. */
  lemma {:induction false} WatermarkIsMaximum(c: Scan, es: seq<Entry>)
    ensures Watermark(c, es) >= c.start
    ensures forall j :: 0 <= j < |es| && Raises(c, es[j]) ==> es[j].mtime <= Watermark(c, es)
    ensures Watermark(c, es) == c.start
            || exists j :: 0 <= j < |es| && Raises(c, es[j]) && Watermark(c, es) == es[j].mtime
  {
    if |es| > 0 {
      var init := es[..|es| - 1];
      WatermarkIsMaximum(c, init);
      forall j | 0 <= j < |es| - 1
        ensures es[j] == init[j]
      {
      }
    }
  }

  /** What `finishScan` stores after a scan never falls below the watermark
      read at its start, and is always positive. */
  lemma CommittedNeverRegresses(c: Scan, es: seq<Entry>, hasParent: bool)
    ensures FinishScan(hasParent, Watermark(c, es)).lmt >= c.start
    ensures FinishScan(hasParent, Watermark(c, es)).lmt >= 1
  {
    WatermarkIsMaximum(c, es);
  }

  /** A file is removed and re-added exactly when it is stored and its mtime
      is strictly greater than the watermark read at the start of the scan. */
  lemma {:induction false} ReAddExactlyWhenChanged(c: Scan, es: seq<Entry>, id: int, path: string)
    ensures ReAddFile(id, path) in Actions(c, es) <==>
            exists j :: 0 <= j < |es| && IsChangedFile(c, es[j]) && es[j].path == path && Lookup(c.store, path) == id
  {
    if |es| > 0 {
      var init := es[..|es| - 1];
      ReAddExactlyWhenChanged(c, init, id, path);
      assert forall j :: 0 <= j < |es| - 1 ==> es[j] == init[j];
    }
  }

  /** A file with no stored object is always added. */
  lemma {:induction false} NewFileAlwaysAdded(c: Scan, es: seq<Entry>, path: string)
    ensures AddFile(path) in Actions(c, es) <==>
            exists j :: 0 <= j < |es| && IsFile(c, es[j]) && !Stored(c, es[j]) && es[j].path == path
  {
    if |es| > 0 {
      var init := es[..|es| - 1];
      NewFileAlwaysAdded(c, init, path);
      assert forall j :: 0 <= j < |es| - 1 ==> es[j] == init[j];
    }
  }

  /** An object ID leaves the removal candidates exactly when a stored entry
      with that ID was met as a skipped link, a file or a recursed directory. */
  lemma {:induction false} StruckExactlyWhenSeen(c: Scan, es: seq<Entry>, id: int)
    ensures id in Struck(c, es) <==>
            exists j :: 0 <= j < |es| && !Hidden(c, es[j]) && Stored(c, es[j]) && Lookup(c.store, es[j].path) == id
                        && (SkippedLink(c, es[j]) || IsFile(c, es[j]) || IsRecursedDir(c, es[j]))
  {
    if |es| > 0 {
      var init := es[..|es| - 1];
      StruckExactlyWhenSeen(c, init, id);
      assert forall j :: 0 <= j < |es| - 1 ==> es[j] == init[j];
    }
  }

  /** Every recursive add the scan queues names the scan's own task as its
      parent, so invalidating that task reaches all of them. */
  lemma {:induction false} SpawnedAddsNameTheScanTask(c: Scan, es: seq<Entry>)
    ensures forall a :: a in Actions(c, es) && a.AddSubdir? ==> a.parentTaskId == c.task.id && a.cancellable == c.task.cancellable
  {
    if |es| > 0 {
      SpawnedAddsNameTheScanTask(c, es[..|es| - 1]);
    }
  }

  predicate AddsSomething(actions: seq<Action>)
  {
    exists k :: 0 <= k < |actions| && (actions[k].AddFile? || actions[k].ReAddFile?)
  }

  /** Scanning twice with no change on disk in between: once every file of
      the listing is stored and the second scan starts from (at least) the
      watermark the first one reached, the second scan adds and re-adds
      nothing. */
  lemma SecondScanAddsNothing(c: Scan, es: seq<Entry>, store2: map<string, int>, start2: int)
    requires start2 >= Watermark(c, es)
    requires forall j :: 0 <= j < |es| && IsFile(c, es[j]) ==> Lookup(store2, es[j].path) > 0
    ensures !AddsSomething(Actions(c.(store := store2, start := start2), es))
  {
    var c2 := c.(store := store2, start := start2);
    WatermarkIsMaximum(c, es);
    forall j | 0 <= j < |es| && IsFile(c, es[j])
      ensures es[j].mtime <= start2
    {
      if !Raises(c, es[j]) {
        assert es[j].mtime <= c.start;
      }
    }
    forall path
      ensures AddFile(path) !in Actions(c2, es)
    {
      NewFileAlwaysAdded(c2, es, path);
    }
    forall id, path
      ensures ReAddFile(id, path) !in Actions(c2, es)
    {
      ReAddExactlyWhenChanged(c2, es, id, path);
    }
    var acts := Actions(c2, es);
    forall k | 0 <= k < |acts|
      ensures !acts[k].AddFile? && !acts[k].ReAddFile?
    {
      var a := acts[k];
      assert a in acts;
      match a
      case AddFile(p) =>
      case ReAddFile(id, p) =>
      case _ =>
    }
  }

  /** An aborted scan can hide a change from every later scan. The scan
      below gets through a new file with mtime 100 and is aborted at the next
      entry, a stored file changed at mtime 50, after the start watermark 10.
      The partial watermark 100 is committed, so the next scan starts above
      the change and never re-adds the file. With the contract of
      `RescanDirectory`, the first two facts fix `examined` at 1 and the
      status at `Aborted`. */
  lemma AbortedScanCanHideChange()
    ensures var c := Scan(Settings(false, false, false), map["/d/b" := 5], 10, TaskRef(1, true));
      var a := Entry("/d/a", "a", false, RegularFile, 100);
      var b := Entry("/d/b", "b", false, RegularFile, 50);
      var irq := Interrupts(2, 1000);
      var committed := FinishScan(false, Watermark(c, [a])).lmt;
      var later := c.(store := c.store["/d/a" := 6], start := committed);
      && !StopsAt(c, irq, a, 0) && StopsAt(c, irq, b, 1) && irq.abortFrom <= 2 * 1
      && IsChangedFile(c, b)
      && ReAddFile(5, "/d/b") !in Actions(c, [a])
      && committed == 100
      && ReAddFile(5, "/d/b") !in Actions(later, [a, b])
  {
    var c := Scan(Settings(false, false, false), map["/d/b" := 5], 10, TaskRef(1, true));
    var a := Entry("/d/a", "a", false, RegularFile, 100);
    var b := Entry("/d/b", "b", false, RegularFile, 50);
    var later := c.(store := c.store["/d/a" := 6], start := 100);
    assert [a, b][..1] == [a];
    assert [a][..0] == [];
    assert Watermark(c, [a]) == 100;
    assert Actions(later, [a]) == [];
    assert Actions(later, [a, b]) == [];
  }
}
