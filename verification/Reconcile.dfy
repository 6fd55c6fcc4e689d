/**
  The reconcile itself (internal/strm/strm.go): every file operation may fail or be
  the last one before the process dies.
 */
module Reconcile {
  import opened Wrappers
  import opened Order
  import opened Paths
  import opened Items
  import opened Strm
  import opened Loss

  // A file operation, or the whole reconcile, succeeded, returned an error, or never returned.
  datatype Outcome = Done | Failed | Crashed

  /** A failed write leaves at most its temp file; a crashed one may also have finished. */
  ghost predicate WriteCut(p: Path, content: string, crashed: bool, files: Files, files': Files) {
    forall q :: || Get(files', q) == Get(files, q)
                || (Temp(q) && Siblings(q, p) && q !in files)
                || (crashed && q == p && Get(files', q) == Some(content))
  }

  /** A path to a file, not named like a temp file. */
  predicate Writable(p: Path) {
    p != [] && !Temp(p)
  }

  lemma TempIsTemp(p: Path, n: string)
    requires p != []
    ensures var t := p[..|p| - 1] + [TEMP_PREFIX + n + ".tmp"]; Temp(t) && Siblings(t, p)
  {
    var t := p[..|p| - 1] + [TEMP_PREFIX + n + ".tmp"];
    assert t[|t| - 1] == TEMP_PREFIX + n + ".tmp" && t[..|t| - 1] == p[..|p| - 1];
    assert TEMP_PREFIX + n + ".tmp" == TEMP_PREFIX + (n + ".tmp");
  }

  /** The media folders, which stay even when empty. */
  predicate ProtectedFolder(out: Path, dir: Path) {
    dir == out + ["movies"] || dir == out + ["series"]
  }

  /**
    Tries to remove the folders above a removed file, innermost first, until one is not
    empty; all of them lie strictly inside the output folder.
   */
  method RemoveFolders(out: Path, p: Path) returns (removed: seq<Path>)
    ensures forall i | 0 <= i < |removed| :: out < removed[i] < p && |removed[i]| == |p| - 1 - i
    ensures forall i | 0 <= i < |removed| :: removed[i] != out + ["movies"] && removed[i] != out + ["series"]
  {
    removed := [];
    if !(out < p) {
      return;
    }
    var dir := p[..|p| - 1];
    while out < dir
      invariant out <= dir < p && |dir| == |p| - 1 - |removed|
      invariant forall i | 0 <= i < |removed| :: out < removed[i] < p && !ProtectedFolder(out, removed[i])
      invariant forall i | 0 <= i < |removed| :: |removed[i]| == |p| - 1 - i
      decreases |dir|
    {
      if ProtectedFolder(out, dir) {
        break;
      }
      var empty: bool := *;
      if !empty {
        break;
      }
      removed := removed + [dir];
      dir := dir[..|dir| - 1];
    }
  }

  class Library {
    const cfg: Config
    var files: Files
    const table: ItemTable

    constructor (cfg: Config, files: Files, table: ItemTable)
      ensures this.cfg == cfg && this.files == files && this.table == table
    {
      this.cfg, this.files, this.table := cfg, files, table;
    }

    /** Removes the file at p; a file already gone counts as removed. */
    method RemoveStrm(p: Path) returns (o: Outcome)
      modifies this`files
      ensures o == Done ==> files == old(files) - {p}
      ensures o == Failed ==> files == old(files)
      ensures o == Crashed ==> files == old(files) || files == old(files) - {p}
    {
      if * {
        return Failed;
      }
      if * {
        return Crashed;
      }
      files := files - {p};
      if * {
        return Crashed;
      }
      o := Done;
    }

    /** Writes content to p through a temp file in the same folder, unless it is already there. */
    method WriteIfChanged(p: Path, content: string) returns (o: Outcome)
      requires Writable(p)
      modifies this`files
      ensures o == Done ==> files == old(files)[p := content]
      ensures o != Done ==> WriteCut(p, content, o == Crashed, old(files), files)
    {
      var readable: bool := *;
      if readable && p in files && files[p] == content {
        return Done;
      }
      // Creating the folder or the temp file fails.
      var n: string := *;
      var t := p[..|p| - 1] + [TEMP_PREFIX + n + ".tmp"];
      if * {
        return Failed;
      }
      if t in files {
        return Failed;
      }
      var written: string := *;
      files := files[t := written];
      TempIsTemp(p, n);
      if * {
        return Crashed;
      }
      if * {
        // Writing, closing or renaming fails; the temp file may stay.
        if * {
          files := files - {t};
        }
        return Failed;
      }
      files := files[p := content] - {t};
      if * {
        return Crashed;
      }
      o := Done;
    }

    /** Removes the file a moved row left behind; only then is it no longer kept. */
    method RetireOld(j: Job, keep: set<Path>) returns (o: Outcome, keep': set<Path>)
      modifies this`files
      ensures o == Done ==> files == old(files) - j.Leaving() && keep' == keep - j.Leaving()
      ensures o == Failed ==> files == old(files) && keep' == keep
      ensures o == Crashed ==> files == old(files) || files == old(files) - j.Leaving()
    {
      keep' := keep;
      if j.recorded.Some? && j.recorded != j.goal {
        o := RemoveStrm(j.recorded.value);
        if o == Done {
          keep' := keep - {j.recorded.value};
        }
      } else {
        assert files == files - {};
        o := Done;
      }
    }

    /** Writes a wanted row's new file, then removes its old one. */
    method WriteRow(j: Job, keep: set<Path>, updates: seq<PathUpdate>, failed: nat, ghost claimed: set<Path>)
      returns (crashed: bool, keep': set<Path>, updates': seq<PathUpdate>, failed': nat)
      requires j.goal.Some? && j.goal.value !in claimed && Writable(j.goal.value)
      modifies this`files
      ensures crashed ==> Edited(cfg, j, old(files), files) && (j.goal.Some? ==> j.goal.value !in claimed)
      ensures crashed ||
        RowDone(cfg, j, Run(old(files), keep, claimed, updates, failed),
                Run(files, keep', claimed + {j.goal.value}, updates', failed'))
    {
      ghost var s := Run(files, keep, claimed, updates, failed);
      crashed, keep', updates', failed' := false, keep, updates, failed;
      if j.recorded.Some? && j.recorded != j.goal {
        keep' := keep' + {j.recorded.value};
      }
      keep' := keep' + {j.goal.value};
      var o := WriteIfChanged(j.goal.value, j.url);
      if o != Done {
        CutIsEdited(cfg, j, o == Crashed, s.files, files);
        RowFailed(cfg, j, s, files, keep');
        return o == Crashed, keep', updates, failed + 1;
      }
      WrittenIsEdited(cfg, j, s.files);
      o, keep' := RetireOld(j, keep');
      if o != Done {
        if o == Failed {
          RowFailed(cfg, j, s, files, keep');
        }
        return o == Crashed, keep', updates, failed + 1;
      }
      if j.recorded != j.goal {
        updates' := updates + [PathUpdate(j.id, j.goal)];
      }
      RowWritten(cfg, j, s, files, keep', updates');
    }

    /** Removes the file of a row that should have none. */
    method ClearRow(j: Job, keep: set<Path>, updates: seq<PathUpdate>, failed: nat, ghost claimed: set<Path>)
      returns (crashed: bool, keep': set<Path>, updates': seq<PathUpdate>, failed': nat)
      requires j.goal.None?
      modifies this`files
      ensures crashed ==> Edited(cfg, j, old(files), files) && (j.goal.Some? ==> j.goal.value !in claimed)
      ensures crashed ||
        RowDone(cfg, j, Run(old(files), keep, claimed, updates, failed), Run(files, keep', claimed, updates', failed'))
    {
      crashed, keep', updates', failed' := false, keep, updates, failed;
      if j.recorded.Some? {
        var o := RemoveStrm(j.recorded.value);
        match o {
          case Crashed => crashed := true;
          case Failed => keep', failed' := keep + {j.recorded.value}, failed + 1;
          case Done => updates' := updates + [PathUpdate(j.id, None)];
        }
      } else {
        assert files == files - {};
      }
    }

    /** One row of the reconcile. */
    method ReconcileRow(j: Job, keep: set<Path>, claimed: set<Path>, updates: seq<PathUpdate>, failed: nat)
      returns (crashed: bool, keep': set<Path>, claimed': set<Path>, updates': seq<PathUpdate>, failed': nat)
      requires j.goal.Some? ==> Writable(j.goal.value)
      modifies this`files
      ensures crashed ==> Edited(cfg, j, old(files), files) && (j.goal.Some? ==> j.goal.value !in claimed)
      ensures crashed ||
        RowDone(cfg, j, Run(old(files), keep, claimed, updates, failed), Run(files, keep', claimed', updates', failed'))
    {
      crashed, keep', claimed', updates', failed' := false, keep, claimed, updates, failed;
      if j.goal.None? {
        crashed, keep', updates', failed' := ClearRow(j, keep, updates, failed, claimed);
      } else if j.goal.value in claimed {
        if j.recorded.Some? && j.recorded != j.goal {
          keep' := keep + {j.recorded.value};
        }
        failed' := failed + 1;
      } else {
        claimed' := claimed + {j.goal.value};
        crashed, keep', updates', failed' := WriteRow(j, keep, updates, failed, claimed);
      }
    }

    /** Saves the recorded paths in one transaction. */
    method SavePaths(updates: seq<PathUpdate>) returns (o: Outcome)
      modifies table`items
      ensures o == Done ==> table.items == Applied(old(table.items), updates)
      ensures o == Failed ==> table.items == old(table.items)
      ensures o == Crashed ==> table.items == old(table.items) || table.items == Applied(old(table.items), updates)
    {
      if updates == [] {
        return Done;
      }
      var tx := table.items;
      for i := 0 to |updates|
        invariant table.items == old(table.items) && tx == Applied(table.items, updates[..i])
      {
        ApplyOne(table.items, updates, i);
        if updates[i].id in tx {
          tx := tx[updates[i].id := tx[updates[i].id].(strmPath := updates[i].path)];
        }
      }
      assert updates[..|updates|] == updates;
      if * {
        return Failed;
      }
      if * {
        return Crashed;
      }
      table.items := tx;
      if * {
        return Crashed;
      }
      o := Done;
    }

    /** Deletes one file; walking to it may fail as well as removing it. */
    method SweepOne(p: Path, ghost keep: set<Path>) returns (o: Outcome)
      requires Sweepable(cfg, p) && p !in keep
      modifies this`files
      ensures forall q :: SweptAt(cfg, keep, old(files), files, q) && (q in files ==> q in old(files))
      ensures o == Done ==> p !in files
    {
      if * {
        return Failed;
      }
      o := RemoveStrm(p);
    }

    /** Deletes the .strm and temp files under movies/ and series/ that are not to be kept. */
    method Sweep(keep: set<Path>) returns (crashed: bool, failed: nat)
      modifies this`files
      ensures forall p :: SweptAt(cfg, keep, old(files), files, p)
      ensures !crashed && failed == 0 ==> forall p | Sweepable(cfg, p) && p !in keep :: p !in files
    {
      crashed, failed := false, 0;
      var rest := set p | p in files && Sweepable(cfg, p) && p !in keep;
      while rest != {}
        invariant forall p | p in rest :: p in old(files) && Sweepable(cfg, p) && p !in keep
        invariant forall p :: SweptAt(cfg, keep, old(files), files, p)
        invariant failed == 0 ==> forall p | p in files && Sweepable(cfg, p) && p !in keep :: p in rest
        decreases |rest|
      {
        var p :| p in rest;
        rest := rest - {p};
        ghost var before := files;
        var o := SweepOne(p, keep);
        SweptFurther(cfg, keep, old(files), before, files);
        if o == Crashed {
          return true, failed;
        }
        if o == Failed {
          failed := failed + 1;
        }
      }
    }

    /** The next row of the loop; files0 is the disk the loop started with. */
    method NextRow(id: string, keep: set<Path>, claimed: set<Path>, updates: seq<PathUpdate>, failed: nat,
                   ghost files0: Files, ghost tr: Trace)
      returns (crashed: bool, keep': set<Path>, claimed': set<Path>, updates': seq<PathUpdate>, failed': nat,
               ghost tr': Trace)
      requires RowsRan(cfg, table.items, files0, tr) && |tr.runs| <= |tr.q| && tr.q[|tr.runs| - 1] == id &&
               id in table.items
      requires tr.End() == Run(files, keep, claimed, updates, failed)
      modifies this`files
      ensures crashed ==> tr' == tr && CutShort(cfg, table.items, tr, files)
      ensures !crashed ==> tr' == tr.(runs := tr.runs + [Run(files, keep', claimed', updates', failed')])
      ensures RowsRan(cfg, table.items, files0, tr')
    {
      var it := table.items[id];
      if Wanted(it) {
        WantedPath(cfg, id, it);
      }
      crashed, keep', claimed', updates', failed' := ReconcileRow(JobOf(cfg, id, it), keep, claimed, updates, failed);
      tr' := tr;
      if !crashed {
        RowsRanMore(cfg, table.items, files0, tr, id, Run(files, keep', claimed', updates', failed'));
        tr' := tr.(runs := tr.runs + [Run(files, keep', claimed', updates', failed')]);
      }
    }

    /** The loop over the rows, in id order; a crash may cut the row after the last in tr. */
    method ReconcileRows()
      returns (crashed: bool, keep: set<Path>, updates: seq<PathUpdate>, failed: nat, ghost tr: Trace)
      modifies this`files
      ensures RowsRan(cfg, table.items, old(files), tr) && !tr.swept
      ensures !crashed ==> tr.Whole() && tr.End() == Run(files, keep, tr.End().claimed, updates, failed)
      ensures crashed ==> CutShort(cfg, table.items, tr, files)
    {
      var q := Sorted(table.items.Keys);
      var claimed: set<Path> := {};
      crashed, keep, updates, failed := false, {}, [], 0;
      tr := Trace(q, [Run(files, {}, {}, [], 0)], false);
      for i := 0 to |q|
        invariant table.items == old(table.items)
        invariant RowsRan(cfg, table.items, old(files), tr) && tr.q == q && !tr.swept && |tr.runs| == i + 1
        invariant tr.End() == Run(files, keep, claimed, updates, failed)
      {
        crashed, keep, claimed, updates, failed, tr := NextRow(q[i], keep, claimed, updates, failed, old(files), tr);
        if crashed {
          return;
        }
      }
    }

    /**
      Drives the file tree to match the table. Its trace tr says what happened: each row a
      step as specified, then at most a cut row, or the updates saved and the sweep begun.
      Whatever fails, and wherever it stops: rows and files change only as Progress says,
      no item loses its last file that need not, and the sweep spares every tracked file.
      When nothing fails, the outcome is exact precisely if no row clears a path after an
      earlier row wrote its file there.
     */
    method Reconcile() returns (o: Outcome, failed: nat, ghost tr: Trace)
      modifies this`files, table`items
      ensures RowsRan(cfg, old(table.items), old(files), tr)
      ensures o == Done ==> tr.swept
      ensures if tr.swept then SweptFrom(cfg, old(table.items), tr, table.items, files)
              else StoppedEarly(cfg, old(table.items), tr, table.items, files)
      ensures tr.swept ==> TrackedSpared(cfg, table.items, tr.End().files, files)
      ensures Progress(cfg, old(table.items), old(files), table.items, files)
      ensures KeepsSafeFiles(cfg, old(table.items), old(files), table.items, files)
      ensures o == Done && failed == 0 ==>
        && table.items == Recordings(cfg, old(table.items))
        && (CleanDisk(cfg, old(table.items), old(files), files) <==> !Overruns(cfg, old(table.items)))
    {
      var ids := Sorted(table.items.Keys);
      failed, tr := 0, Trace(ids, [Run(files, {}, {}, [], 0)], false);
      if * {
        // Creating the media folders or reading the table fails.
        Stopped(cfg, table.items, files, tr, table.items, files);
        return Failed, 0, tr;
      }
      var crashed, keep, updates;
      crashed, keep, updates, failed, tr := ReconcileRows();
      if crashed {
        Stopped(cfg, table.items, old(files), tr, table.items, files);
        return Crashed, failed, tr;
      }
      o := SavePaths(updates);
      if o != Done {
        Stopped(cfg, old(table.items), old(files), tr, table.items, files);
        return o, failed, tr;
      }
      tr := tr.(swept := true);
      o, failed := SweepLast(keep, failed, old(table.items), old(files), tr);
      Stopped(cfg, old(table.items), old(files), tr, table.items, files);
    }

    /** The sweep of a run whose updates are saved. */
    method SweepLast(keep: set<Path>, failed: nat, ghost items: map<string, Item>, ghost files0: Files, ghost tr: Trace)
      returns (o: Outcome, failed': nat)
      requires RowsRan(cfg, items, files0, tr) && tr.Whole()
      requires tr.End().files == files && tr.End().keep == keep && tr.End().failed == failed
      requires table.items == Applied(items, tr.End().updates)
      modifies this`files
      ensures o != Failed && SweptFrom(cfg, items, tr, table.items, files)
      ensures o == Done && failed' == 0 ==>
        && table.items == Recordings(cfg, items)
        && (CleanDisk(cfg, items, files0, files) <==> !Overruns(cfg, items))
    {
      var crashed, missed := Sweep(keep);
      if failed + missed == 0 && !crashed {
        WholeReached(cfg, items, files0, tr);
        ExactEnd(cfg, items, files0, tr.End(), files);
      }
      failed' := failed + missed;
      o := if crashed then Crashed else Done;
    }
  }

  /** What holds of every reconcile, wherever it stops. */
  lemma Stopped(cfg: Config, items: map<string, Item>, files: Files, tr: Trace, items': map<string, Item>,
                files': Files)
    requires RowsRan(cfg, items, files, tr) && StopsAt(cfg, items, tr, items', files')
    ensures Progress(cfg, items, files, items', files') && KeepsSafeFiles(cfg, items, files, items', files')
    ensures tr.swept ==> TrackedSpared(cfg, items', tr.End().files, files')
  {
    InterruptedIsProgress(cfg, items, files, items', files');
    AllSafeKept(cfg, items, files, items', files');
    if tr.swept {
      SweptEnd(cfg, items, files, tr, items', files');
    }
  }

  lemma WantedPath(cfg: Config, id: string, it: Item)
    requires Wanted(it)
    ensures Writable(DesiredPath(cfg, id, it))
  {
    assert Owns(cfg, map[id := it], id, DesiredPath(cfg, id, it));
    OwnedIsNoTemp(cfg, map[id := it], DesiredPath(cfg, id, it));
  }

  lemma CutIsEdited(cfg: Config, j: Job, crashed: bool, files: Files, files': Files)
    requires j.goal.Some? && WriteCut(j.goal.value, j.url, crashed, files, files')
    ensures Edited(cfg, j, files, files') && forall p | p in files :: p in files'
  {
    forall p ensures Edit(cfg, j, files, files', p) && (p in files ==> p in files') {
      assert Get(files', p) == Get(files, p) || (Temp(p) && Siblings(p, j.goal.value) && p !in files) ||
             (crashed && p == j.goal.value && Get(files', p) == Some(j.url));
    }
  }

  lemma WrittenIsEdited(cfg: Config, j: Job, files: Files)
    requires j.goal.Some?
    ensures var written := files[j.goal.value := j.url];
            Edited(cfg, j, files, written) && Edited(cfg, j, files, written - j.Leaving())
  {
  }

  lemma RowFailed(cfg: Config, j: Job, s: Run, files: Files, keep: set<Path>)
    requires j.goal.Some? && j.goal.value !in s.claimed
    requires Edited(cfg, j, s.files, files) && forall p | p in s.files :: p in files
    requires keep == s.keep + j.Leaving() + {j.goal.value}
    ensures RowDone(cfg, j, s, Run(files, keep, s.claimed + {j.goal.value}, s.updates, s.failed + 1))
  {
  }

  lemma RowWritten(cfg: Config, j: Job, s: Run, files: Files, keep: set<Path>, updates: seq<PathUpdate>)
    requires j.goal.Some? && j.goal.value !in s.claimed
    requires files == s.files[j.goal.value := j.url] - j.Leaving()
    requires keep == s.keep + j.Leaving() + {j.goal.value} - j.Leaving()
    requires updates == if j.recorded == j.goal then s.updates else s.updates + [PathUpdate(j.id, j.goal)]
    ensures RowDone(cfg, j, s, Run(files, keep, s.claimed + {j.goal.value}, updates, s.failed))
  {
    WrittenIsEdited(cfg, j, s.files);
  }

  lemma SweptFurther(cfg: Config, keep: set<Path>, f0: Files, f1: Files, f2: Files)
    requires forall p :: SweptAt(cfg, keep, f0, f1, p)
    requires forall p :: SweptAt(cfg, keep, f1, f2, p)
    ensures forall p :: SweptAt(cfg, keep, f0, f2, p)
  {
    forall p ensures SweptAt(cfg, keep, f0, f2, p) {
      assert SweptAt(cfg, keep, f0, f1, p) && SweptAt(cfg, keep, f1, f2, p);
    }
  }

  lemma ApplyOne(items: map<string, Item>, updates: seq<PathUpdate>, i: nat)
    requires i < |updates|
    ensures var tx, u := Applied(items, updates[..i]), updates[i];
            Applied(items, updates[..i + 1]) == if u.id in tx then tx[u.id := tx[u.id].(strmPath := u.path)] else tx
  {
    assert updates[..i + 1] == updates[..i] + [updates[i]];
    forall id, path
      ensures PathAfter(updates[..i + 1], id, path) ==
              if updates[i].id == id then updates[i].path else PathAfter(updates[..i], id, path)
    {
      PathAfterMore(updates[..i], updates[i], id, path);
    }
  }
}
