/**
  Reconciles cut short and run again: progress composes, and the first run in which
  nothing fails ends where a single undisturbed one would have.
 */
module Recovery {
  import opened Wrappers
  import opened Order
  import opened Election
  import opened Bytes
  import opened Paths
  import opened Places
  import opened Items
  import opened Strm
  import opened Failures
  import opened Reconcile

  lemma OwnsSame(cfg: Config, items: map<string, Item>, items': map<string, Item>, id: string, p: Path)
    requires Advances(cfg, items, items')
    ensures Owns(cfg, items', id, p) == Owns(cfg, items, id, p)
  {
    assert id in items ==> RowAdvances(cfg, items, items', id);
  }

  lemma StraySame(cfg: Config, items: map<string, Item>, items': map<string, Item>, p: Path)
    requires Advances(cfg, items, items')
    ensures Stray(cfg, items', p) == Stray(cfg, items, p)
  {
    forall id, q ensures Owns(cfg, items', id, q) == Owns(cfg, items, id, q) {
      OwnsSame(cfg, items, items', id, q);
    }
  }

  lemma OwnedSame(cfg: Config, items: map<string, Item>, items': map<string, Item>, p: Path)
    requires Advances(cfg, items, items')
    ensures Owned(cfg, items', p) == Owned(cfg, items, p)
    ensures Recorded(items', p) ==> Recorded(items, p) || Owned(cfg, items, p)
  {
    forall id ensures Owns(cfg, items', id, p) == Owns(cfg, items, id, p) {
      OwnsSame(cfg, items, items', id, p);
    }
    if Recorded(items', p) {
      var id :| id in items' && items'[id].strmPath == Some(p);
      assert RowAdvances(cfg, items, items', id);
      if items[id].strmPath != Some(p) {
        assert Owns(cfg, items, id, p);
      }
    }
  }

  /** A row that runs into nobody still runs into nobody. */
  lemma StaleShrinks(cfg: Config, items: map<string, Item>, items': map<string, Item>, id: string, p: Path)
    requires Advances(cfg, items, items') && id in items && Stale(cfg, id, items'[id], p)
    ensures Stale(cfg, id, items[id], p)
  {
    assert RowAdvances(cfg, items, items', id);
  }

  lemma OverrunsShrink(cfg: Config, items: map<string, Item>, items': map<string, Item>)
    requires Advances(cfg, items, items') && Overruns(cfg, items')
    ensures Overruns(cfg, items)
  {
    var x, y :| Overrun(cfg, items', x, y);
    assert RowAdvances(cfg, items, items', x) && RowAdvances(cfg, items, items', y);
    StaleShrinks(cfg, items, items', y, DesiredPath(cfg, x, items[x]));
    assert Overrun(cfg, items, x, y);
  }

  lemma HoldsOwnSame(cfg: Config, items: map<string, Item>, items': map<string, Item>, files: Files, p: Path)
    requires Advances(cfg, items, items') && HoldsOwn(cfg, items', files, p)
    ensures HoldsOwn(cfg, items, files, p)
  {
    var id :| Owns(cfg, items', id, p) && Get(files, p) == Some(StreamURL(cfg, items'[id]));
    assert RowAdvances(cfg, items, items', id);
    SameGoal(cfg, id, items[id], items'[id]);
    assert Owns(cfg, items, id, p);
  }

  lemma FramedComposes(cfg: Config, items: map<string, Item>, files: Files, items1: map<string, Item>, files1: Files,
                       files2: Files, p: Path)
    requires Advances(cfg, items, items1)
    requires Framed(cfg, items, files, files1, p) && Framed(cfg, items1, files1, files2, p)
    ensures Framed(cfg, items, files, files2, p)
  {
    if HoldsOwn(cfg, items1, files2, p) {
      HoldsOwnSame(cfg, items, items1, files2, p);
    }
    OwnedSame(cfg, items, items1, p);
    StraySame(cfg, items, items1, p);
  }

  /** A path vacated by the first of two reconciles, or by the second, is vacated after both. */
  lemma VacatedComposes(cfg: Config, items: map<string, Item>, items1: map<string, Item>, files1: Files, files2: Files,
                        p: Path)
    requires Advances(cfg, items, items1)
    requires (Vacated(cfg, items, files1, p) && Framed(cfg, items1, files1, files2, p)) ||
             Vacated(cfg, items1, files2, p)
    ensures Vacated(cfg, items, files2, p)
  {
    if HoldsOwn(cfg, items1, files2, p) {
      HoldsOwnSame(cfg, items, items1, files2, p);
    }
    OwnedSame(cfg, items, items1, p);
    StraySame(cfg, items, items1, p);
  }

  lemma RowComposes(
    cfg: Config, items: map<string, Item>, files: Files, items1: map<string, Item>, files1: Files,
    items2: map<string, Item>, files2: Files, id: string)
    requires Progress(cfg, items, files, items1, files1) && Progress(cfg, items1, files1, items2, files2)
    requires id in items
    ensures RowProgress(cfg, items, items2, files2, id)
  {
    ProgressAdvances(cfg, items, files, items1, files1);
    assert RowProgress(cfg, items, items1, files1, id) && RowProgress(cfg, items1, items2, files2, id);
    if items[id].strmPath.Some? && items2[id].strmPath != items[id].strmPath {
      var p := items[id].strmPath.value;
      assert Framed(cfg, items1, files1, files2, p);
      VacatedComposes(cfg, items, items1, files1, files2, p);
    }
  }

  /** What two reconciles in a row may do, one may do. */
  lemma ProgressComposes(cfg: Config, items: map<string, Item>, files: Files, items1: map<string, Item>, files1: Files,
                         items2: map<string, Item>, files2: Files)
    requires Progress(cfg, items, files, items1, files1) && Progress(cfg, items1, files1, items2, files2)
    ensures Progress(cfg, items, files, items2, files2)
  {
    ProgressAdvances(cfg, items, files, items1, files1);
    forall id | id in items ensures RowProgress(cfg, items, items2, files2, id) {
      RowComposes(cfg, items, files, items1, files1, items2, files2, id);
    }
    forall p ensures Framed(cfg, items, files, files2, p) {
      FramedComposes(cfg, items, files, items1, files1, files2, p);
    }
  }

  /** A disk that is exact for the interrupted state is exact for the original one. */
  lemma CleanAtAgain(cfg: Config, items: map<string, Item>, files: Files, items1: map<string, Item>, files1: Files,
                     files2: Files, p: Path)
    requires Progress(cfg, items, files, items1, files1) && CleanAt(cfg, items1, files1, files2, p)
    requires Stray(cfg, items, p) ==> Sweepable(cfg, p)
    ensures CleanAt(cfg, items, files, files2, p)
  {
    ProgressAdvances(cfg, items, files, items1, files1);
    OwnedSame(cfg, items, items1, p);
    forall id | Owns(cfg, items, id, p) ensures Get(files2, p) == Some(StreamURL(cfg, items[id])) {
      assert Owns(cfg, items1, id, p);
    }
    if !Owned(cfg, items, p) && !Sweepable(cfg, p) {
      assert Framed(cfg, items, files, files1, p);
      if Recorded(items, p) {
        var id :| id in items && items[id].strmPath == Some(p);
        assert RowProgress(cfg, items, items1, files1, id);
      }
    }
  }

  /**
    A clean rerun after any interrupted reconcile reaches the same disk and table as an
    undisturbed run from the original state, if the rows keep to movies/ and series/:
    elsewhere the sweep does not find a temp file left behind.
   */
  lemma RerunReachesTheSame(cfg: Config, items: map<string, Item>, files: Files, items1: map<string, Item>,
                            files1: Files, rerun: Files)
    requires Progress(cfg, items, files, items1, files1) && CleanDisk(cfg, items1, files1, rerun)
    requires Confined(cfg, items)
    ensures Recordings(cfg, items1) == Recordings(cfg, items)
    ensures CleanDisk(cfg, items, files, rerun)
    ensures forall direct | CleanDisk(cfg, items, files, direct) :: direct == rerun
  {
    ProgressAdvances(cfg, items, files, items1, files1);
    forall p ensures CleanAt(cfg, items, files, rerun, p) {
      if Stray(cfg, items, p) {
        ConfinedIsSweepable(cfg, items, p);
      }
      CleanAtAgain(cfg, items, files, items1, files1, rerun, p);
    }
    forall direct | CleanDisk(cfg, items, files, direct) ensures direct == rerun {
      OneCleanDisk(cfg, items, files, direct, rerun);
    }
  }

  /** It does matter: a temp file left outside the two folders outlives every clean rerun. */
  lemma LeftoverStays(cfg: Config, items: map<string, Item>, files: Files, p: Path, content: string, direct: Files,
                      rerun: Files)
    requires Stray(cfg, items, p) && !Sweepable(cfg, p) && !Recorded(items, p) && p !in files
    requires CleanDisk(cfg, items, files, direct) && CleanDisk(cfg, items, files[p := content], rerun)
    ensures Progress(cfg, items, files, items, files[p := content])
    ensures p !in direct && p in rerun
  {
    var left := files[p := content];
    assert CleanAt(cfg, items, files, direct, p) && CleanAt(cfg, items, left, rerun, p);
    if Owned(cfg, items, p) {
      OwnedIsNoTemp(cfg, items, p);
    }
    LeftoverIsProgress(cfg, items, files, left, p);
  }

  lemma LeftoverIsProgress(cfg: Config, items: map<string, Item>, files: Files, left: Files, p: Path)
    requires Stray(cfg, items, p) && forall x | x != p :: Get(left, x) == Get(files, x)
    ensures Progress(cfg, items, files, items, left)
  {
    forall x ensures Framed(cfg, items, files, left, x) {
    }
  }

  // ------------------------------------- exactly when a rerun makes up for it

  /** Every clean rerun after one interrupted reconcile ends at direct. */
  ghost predicate RerunsMakeUp(cfg: Config, items: map<string, Item>, files: Files, direct: Files) {
    forall items1, files1, rerun ::
      Interrupted(cfg, items, files, items1, files1) && CleanDisk(cfg, items1, files1, rerun) ==> rerun == direct
  }

  /** So does every one after any number of them. */
  ghost predicate AllRerunsMakeUp(cfg: Config, items: map<string, Item>, files: Files, direct: Files) {
    forall items1, files1, rerun ::
      Progress(cfg, items, files, items1, files1) && CleanDisk(cfg, items1, files1, rerun) ==> rerun == direct
  }

  /** The k-th temp file name next to p. */
  function TempAt(p: Path, k: nat): Path
    requires p != []
  {
    p[..|p| - 1] + [TEMP_PREFIX + Decimal(k) + ".tmp"]
  }

  lemma TempAtInjective(p: Path, j: nat, k: nat)
    requires p != [] && TempAt(p, j) == TempAt(p, k)
    ensures j == k
  {
    var x, y := TempAt(p, j)[|p| - 1], TempAt(p, k)[|p| - 1];
    assert x == TEMP_PREFIX + Decimal(j) + ".tmp" && y == TEMP_PREFIX + Decimal(k) + ".tmp";
    assert x[|TEMP_PREFIX|..|x| - 4] == Decimal(j) && y[|TEMP_PREFIX|..|y| - 4] == Decimal(k);
    DecimalInjective(j, k);
  }

  /** Of more temp file names than paths are taken one is free. */
  lemma {:induction false} FreshTemp(p: Path, taken: set<Path>, n: nat)
    requires p != [] && |taken| < n
    ensures exists k: nat :: k < n && TempAt(p, k) !in taken
    decreases n
  {
    var t := TempAt(p, n - 1);
    if t in taken {
      FreshTemp(p, taken - {t}, n - 1);
      var k: nat :| k < n - 1 && TempAt(p, k) !in taken - {t};
      if TempAt(p, k) == t {
        TempAtInjective(p, k, n - 1);
      }
    }
  }

  /** If nothing succeeds, nothing changes on the disk. */
  lemma {:induction false} NothingLucky(files: Files, jobs: seq<Job>, i: nat)
    requires i <= |jobs|
    ensures Pattern(files, jobs, {}, i).files == files
  {
    if i > 0 {
      NothingLucky(files, jobs, i - 1);
      assert files - {} == files;
    }
  }

  /** The first of the rows in order whose file belongs at p, at k at the latest. */
  lemma {:induction false} FirstOwner(cfg: Config, items: map<string, Item>, q: seq<string>, p: Path, k: nat)
    returns (i: nat)
    requires k < |q| && Owns(cfg, items, q[k], p)
    ensures i <= k && Owns(cfg, items, q[i], p)
    ensures forall m | 0 <= m < i :: !Owns(cfg, items, q[m], p)
  {
    i := k;
    if m :| 0 <= m < k && Owns(cfg, items, q[m], p) {
      i := FirstOwner(cfg, items, q, p, m);
    }
  }

  /** Dying while the first row of p writes its file leaves a temp file, and all else as it was. */
  lemma LeftoverHappens(cfg: Config, items: map<string, Item>, files: Files, p: Path, t: Path)
    requires Owned(cfg, items, p) && Temp(t) && Siblings(t, p) && t !in files
    ensures Interrupted(cfg, items, files, items, files[t := ""])
  {
    SortExists(items.Keys);
    var q :| Sorts(q, items.Keys);
    var id :| Owns(cfg, items, id, p);
    var k :| 0 <= k < |q| && q[k] == id;
    var i := FirstOwner(cfg, items, q, p, k);
    var tr := NothingYetAt(cfg, items, files, q, i, p);
    DiedThere(cfg, items, files, tr, p, t);
  }

  /** A run that has changed nothing and is at a row of p, whose turn it is. */
  ghost predicate ComesTo(cfg: Config, items: map<string, Item>, files: Files, tr: Trace, p: Path) {
    && RowsRan(cfg, items, files, tr) && !tr.swept
    && |tr.runs| <= |tr.q| && Owns(cfg, items, tr.q[|tr.runs| - 1], p)
    && tr.End().files == files && p !in tr.End().claimed
  }

  lemma DiedThere(cfg: Config, items: map<string, Item>, files: Files, tr: Trace, p: Path, t: Path)
    requires ComesTo(cfg, items, files, tr, p) && Temp(t) && Siblings(t, p) && t !in files
    ensures Interrupted(cfg, items, files, items, files[t := ""])
  {
    DiesThere(cfg, items, tr, p, t);
    CutIsInterrupted(cfg, items, files, tr, files[t := ""]);
  }

  lemma DiesThere(cfg: Config, items: map<string, Item>, tr: Trace, p: Path, t: Path)
    requires 0 < |tr.runs| <= |tr.q| && Owns(cfg, items, tr.q[|tr.runs| - 1], p) && p !in tr.End().claimed
    requires Temp(t) && Siblings(t, p) && t !in tr.End().files
    ensures CutShort(cfg, items, tr, tr.End().files[t := ""])
  {
    var id := tr.q[|tr.runs| - 1];
    DiesWriting(cfg, JobOf(cfg, id, items[id]), p, tr.End().files, t);
  }

  lemma CutIsInterrupted(cfg: Config, items: map<string, Item>, files: Files, tr: Trace, files1: Files)
    requires RowsRan(cfg, items, files, tr) && !tr.swept && CutShort(cfg, items, tr, files1)
    ensures Interrupted(cfg, items, files, items, files1)
  {
    assert StopsAt(cfg, items, tr, items, files1);
  }

  /** A run may come as far as row i without having changed or claimed anything at p. */
  lemma NothingYetAt(cfg: Config, items: map<string, Item>, files: Files, q: seq<string>, i: nat, p: Path)
    returns (tr: Trace)
    requires Sorts(q, items.Keys) && i < |q| && Owns(cfg, items, q[i], p)
    requires forall m | 0 <= m < i :: !Owns(cfg, items, q[m], p)
    ensures ComesTo(cfg, items, files, tr, p)
  {
    tr := UnluckyStart(cfg, items, files, q, i);
    UntouchedYet(cfg, items, files, q, i, p);
  }

  lemma UnluckyStart(cfg: Config, items: map<string, Item>, files: Files, q: seq<string>, i: nat) returns (tr: Trace)
    requires Sorts(q, items.Keys) && i < |q|
    ensures RowsRan(cfg, items, files, tr) && tr.q == q && |tr.runs| == i + 1 && !tr.swept
    ensures tr.End() == Pattern(files, JobsOf(cfg, items, q), {}, i)
  {
    var whole := LuckyTrace(cfg, items, files, q, {});
    LuckyRan(cfg, items, files, q, {});
    PrefixRan(cfg, items, files, whole, i);
    tr := Trace(q, whole.runs[..i + 1], false);
  }

  lemma UntouchedYet(cfg: Config, items: map<string, Item>, files: Files, q: seq<string>, i: nat, p: Path)
    requires (forall k | 0 <= k < |q| :: q[k] in items) && i <= |q|
    requires forall m | 0 <= m < i :: !Owns(cfg, items, q[m], p)
    ensures var s := Pattern(files, JobsOf(cfg, items, q), {}, i); s.files == files && p !in s.claimed
  {
    var jobs := JobsOf(cfg, items, q);
    NothingLucky(files, jobs, i);
    if p in Pattern(files, jobs, {}, i).claimed {
      ClaimedEarlier(files, jobs, {}, i, p);
    }
  }

  lemma DiesWriting(cfg: Config, j: Job, p: Path, files: Files, t: Path)
    requires j.goal == Some(p) && Temp(t) && Siblings(t, p) && t !in files
    ensures Edited(cfg, j, files, files[t := ""])
  {
    var left := files[t := ""];
    forall x ensures Edit(cfg, j, files, left, x) {
    }
  }

  lemma PrefixRan(cfg: Config, items: map<string, Item>, files: Files, tr: Trace, i: nat)
    requires RowsRan(cfg, items, files, tr) && i < |tr.runs|
    ensures RowsRan(cfg, items, files, Trace(tr.q, tr.runs[..i + 1], false))
  {
    var runs := tr.runs[..i + 1];
    forall k: nat | k < |runs| - 1 ensures RowRan(cfg, items, tr.q, runs, k) {
      assert RowRan(cfg, items, tr.q, tr.runs, k);
    }
  }

  /** A temp file next to a place outside the two folders is not one the sweep looks for. */
  lemma OutsideSiblings(cfg: Config, p: Path, t: Path)
    requires Siblings(t, p) && !InMediaFolder(cfg, p)
    ensures !InMediaFolder(cfg, t)
  {
    var n := |cfg.out|;
    if |p| >= n + 2 {
      assert t[n] == t[..|t| - 1][n] && p[n] == p[..|p| - 1][n];
      assert p[..n] == p[..|p| - 1][..n] && t[..n] == t[..|t| - 1][..n];
    }
  }

  /** The disk a clean rerun leaves when t was left over. */
  lemma RerunKeepsLeftover(cfg: Config, items: map<string, Item>, files: Files, direct: Files, t: Path)
    requires CleanDisk(cfg, items, files, direct) && t !in files
    requires Temp(t) && !Sweepable(cfg, t) && !Recorded(items, t)
    ensures CleanDisk(cfg, items, files[t := ""], direct[t := ""]) && t !in direct
  {
    var left, rerun := files[t := ""], direct[t := ""];
    if Owned(cfg, items, t) {
      OwnedIsNoTemp(cfg, items, t);
    }
    assert CleanAt(cfg, items, files, direct, t);
    forall p ensures CleanAt(cfg, items, left, rerun, p) {
      assert CleanAt(cfg, items, files, direct, p);
      assert p != t ==> Get(left, p) == Get(files, p) && Get(rerun, p) == Get(direct, p);
    }
  }

  function RecordedPaths(items: map<string, Item>): set<Path> {
    set id | id in items && items[id].strmPath.Some? :: items[id].strmPath.value
  }

  /** A place outside the two folders can be left a temp file no rerun removes. */
  lemma OutsideLeavesMore(cfg: Config, items: map<string, Item>, files: Files, direct: Files, p: Path)
    requires CleanDisk(cfg, items, files, direct) && Owned(cfg, items, p) && !InMediaFolder(cfg, p)
    ensures !RerunsMakeUp(cfg, items, files, direct)
  {
    OwnedIsNoTemp(cfg, items, p);
    var t := FreeTemp(p, files.Keys + RecordedPaths(items));
    NotRecorded(items, t);
    OutsideSiblings(cfg, p, t);
    LeftoverHappens(cfg, items, files, p, t);
    RerunKeepsLeftover(cfg, items, files, direct, t);
    Differs(cfg, items, files, direct, t);
  }

  lemma FreeTemp(p: Path, taken: set<Path>) returns (t: Path)
    requires p != []
    ensures t !in taken && Temp(t) && Siblings(t, p)
  {
    FreshTemp(p, taken, |taken| + 1);
    var k: nat :| k < |taken| + 1 && TempAt(p, k) !in taken;
    t := TempAt(p, k);
    TempIsTemp(p, Decimal(k));
  }

  lemma Differs(cfg: Config, items: map<string, Item>, files: Files, direct: Files, t: Path)
    requires Interrupted(cfg, items, files, items, files[t := ""])
    requires CleanDisk(cfg, items, files[t := ""], direct[t := ""]) && t !in direct
    ensures !RerunsMakeUp(cfg, items, files, direct)
  {
    assert t in direct[t := ""];
  }

  lemma NotRecorded(items: map<string, Item>, t: Path)
    requires t !in RecordedPaths(items)
    ensures !Recorded(items, t)
  {
  }

  /**
    A clean rerun ends where an undisturbed run would, whatever interruptions came before,
    exactly if the rows keep to movies/ and series/; and one interruption is enough to tell.
   */
  lemma RerunExactly(cfg: Config, items: map<string, Item>, files: Files, direct: Files)
    requires CleanDisk(cfg, items, files, direct)
    ensures RerunsMakeUp(cfg, items, files, direct) <==> Confined(cfg, items)
    ensures AllRerunsMakeUp(cfg, items, files, direct) <==> Confined(cfg, items)
  {
    if Confined(cfg, items) {
      forall items1, files1, rerun
        | Progress(cfg, items, files, items1, files1) && CleanDisk(cfg, items1, files1, rerun)
        ensures rerun == direct
      {
        RerunReachesTheSame(cfg, items, files, items1, files1, rerun);
      }
    } else {
      var id, p :| Owns(cfg, items, id, p) && !InMediaFolder(cfg, p);
      OutsideLeavesMore(cfg, items, files, direct, p);
    }
    if AllRerunsMakeUp(cfg, items, files, direct) {
      OneOfMany(cfg, items, files, direct);
    }
  }

  lemma OneOfMany(cfg: Config, items: map<string, Item>, files: Files, direct: Files)
    requires AllRerunsMakeUp(cfg, items, files, direct)
    ensures RerunsMakeUp(cfg, items, files, direct)
  {
    forall items1, files1, rerun
      | Interrupted(cfg, items, files, items1, files1) && CleanDisk(cfg, items1, files1, rerun)
      ensures rerun == direct
    {
      InterruptedIsProgress(cfg, items, files, items1, files1);
    }
  }

  /** An input at which it does not: a movie whose path leaves the output folder, on an empty disk. */
  lemma RerunLeavesMore(cfg: Config, st: ItemState)
    requires Wanted(Item(st, None)) && !IsGroupedEpisode(st) && Plain(Sanitize(st.peerID))
    ensures var items := map["tmdb:/../../../x" := Item(st, None)];
            var p := Above(cfg.out, 1) + ["x].strm"];
            var direct := map[p := StreamURL(cfg, Item(st, None))];
            CleanDisk(cfg, items, map[], direct) && !RerunsMakeUp(cfg, items, map[], direct)
  {
    var id, it, p := "tmdb:/../../../x", Item(st, None), Above(cfg.out, 1) + ["x].strm"];
    OutsideID(cfg.out, st, cfg.digest);
    PlaceIs(cfg, st, id);
    OutsideRowLeavesMore(cfg, id, it, p);
  }

  lemma OutsideRowLeavesMore(cfg: Config, id: string, it: Item, p: Path)
    requires Wanted(it) && it.strmPath.None? && DesiredPath(cfg, id, it) == p && |p| < |cfg.out| + 2
    ensures var items, direct := map[id := it], map[p := StreamURL(cfg, it)];
            CleanDisk(cfg, items, map[], direct) && !RerunsMakeUp(cfg, items, map[], direct)
  {
    OneRowClean(cfg, id, it, p);
    assert Owns(cfg, map[id := it], id, p);
    OutsideLeavesMore(cfg, map[id := it], map[], map[p := StreamURL(cfg, it)], p);
  }

  /** A table of one row without a record, on an empty disk: a clean run leaves exactly its file. */
  lemma OneRowClean(cfg: Config, id: string, it: Item, p: Path)
    requires Wanted(it) && it.strmPath.None? && DesiredPath(cfg, id, it) == p
    ensures CleanDisk(cfg, map[id := it], map[], map[p := StreamURL(cfg, it)])
  {
    var items, direct := map[id := it], map[p := StreamURL(cfg, it)];
    assert Owns(cfg, items, id, p);
    forall x ensures CleanAt(cfg, items, map[], direct, x) {
    }
  }

  lemma OneCleanDisk(cfg: Config, items: map<string, Item>, files: Files, a: Files, b: Files)
    requires CleanDisk(cfg, items, files, a) && CleanDisk(cfg, items, files, b)
    ensures a == b
  {
    forall p ensures Get(a, p) == Get(b, p) {
      assert CleanAt(cfg, items, files, a, p) && CleanAt(cfg, items, files, b, p);
      if id :| Owns(cfg, items, id, p) {
      }
    }
    SameMap(a, b);
  }

  lemma CleanFrom(cfg: Config, items0: map<string, Item>, files0: Files, items1: map<string, Item>, files1: Files,
                  files: Files)
    requires Progress(cfg, items0, files0, items1, files1)
    requires CleanDisk(cfg, items1, files1, files) <==> !Overruns(cfg, items1)
    ensures Recordings(cfg, items1) == Recordings(cfg, items0)
    ensures !Overruns(cfg, items0) && Confined(cfg, items0) ==> CleanDisk(cfg, items0, files0, files)
  {
    RecordingsSame(cfg, items0, files0, items1, files1);
    if !Overruns(cfg, items0) && Confined(cfg, items0) {
      NoNewOverruns(cfg, items0, files0, items1, files1);
      RerunReachesTheSame(cfg, items0, files0, items1, files1, files);
    }
  }

  lemma RecordingsSame(cfg: Config, items: map<string, Item>, files: Files, items': map<string, Item>, files': Files)
    requires Progress(cfg, items, files, items', files')
    ensures Recordings(cfg, items') == Recordings(cfg, items)
  {
    ProgressAdvances(cfg, items, files, items', files');
  }

  lemma NoNewOverruns(cfg: Config, items: map<string, Item>, files: Files, items': map<string, Item>, files': Files)
    requires Progress(cfg, items, files, items', files') && !Overruns(cfg, items)
    ensures !Overruns(cfg, items')
  {
    ProgressAdvances(cfg, items, files, items', files');
    if Overruns(cfg, items') {
      OverrunsShrink(cfg, items, items');
    }
  }

  // ----------------------------------------------- when rows never meet

  /** Every recorded path was made for its own row, whatever the row said then. */
  ghost predicate MadeForRow(cfg: Config, id: string, it: Item) {
    it.strmPath.Some? ==> exists out, st :: it.strmPath.value == PathFor(out, st, id, cfg.digest)
  }

  /** The rows' id suffixes differ, are tidy and hold no bracket. */
  ghost predicate DistinctSuffixes(cfg: Config, items: map<string, Item>) {
    && (forall id | id in items :: '[' !in Disambiguator(id, cfg.digest) && Tidy(Disambiguator(id, cfg.digest)))
    && (forall a, b | a in items && b in items && a != b ::
        Disambiguator(a, cfg.digest) != Disambiguator(b, cfg.digest))
  }

  /** Another row records or wants a path that this one records or wants. */
  ghost predicate Contested(cfg: Config, items: map<string, Item>, id: string)
    requires id in items
  {
    exists y, p :: y in items && y != id && Uses(cfg, items, y, p) && Uses(cfg, items, id, p)
  }

  predicate Uses(cfg: Config, items: map<string, Item>, y: string, p: Path) {
    y in items && (items[y].strmPath == Some(p) || Goal(cfg, y, items[y]) == Some(p))
  }

  /** Then no row ever records or wants another's path. */
  lemma DistinctSuffixesNeverMeet(cfg: Config, items: map<string, Item>)
    requires DistinctSuffixes(cfg, items) && forall id | id in items :: MadeForRow(cfg, id, items[id])
    ensures !Overruns(cfg, items)
    ensures forall id | id in items :: !Contested(cfg, items, id)
  {
    if x, y :| Overrun(cfg, items, x, y) {
      LessTotal(x, x);
      PathsApart(cfg, items, x, y, DesiredPath(cfg, x, items[x]));
    }
    forall id | id in items ensures !Contested(cfg, items, id) {
      if y, p :| y in items && y != id && Uses(cfg, items, y, p) && Uses(cfg, items, id, p) {
        PathsApart(cfg, items, id, y, p);
      }
    }
  }

  /** A path a row uses is one made for it. */
  lemma UsedIsMade(cfg: Config, items: map<string, Item>, x: string, p: Path) returns (out: Path, st: ItemState)
    requires x in items && MadeForRow(cfg, x, items[x]) && Uses(cfg, items, x, p)
    ensures p == PathFor(out, st, x, cfg.digest)
  {
    if items[x].strmPath == Some(p) {
      out, st :| p == PathFor(out, st, x, cfg.digest);
    } else {
      out, st := cfg.out, items[x].st;
    }
  }

  lemma PathsApart(cfg: Config, items: map<string, Item>, x: string, y: string, p: Path)
    requires DistinctSuffixes(cfg, items) && x in items && y in items && x != y
    requires MadeForRow(cfg, x, items[x]) && MadeForRow(cfg, y, items[y]) && Uses(cfg, items, x, p)
    ensures !Uses(cfg, items, y, p)
  {
    if Uses(cfg, items, y, p) {
      var out1, st1 := UsedIsMade(cfg, items, x, p);
      var out2, st2 := UsedIsMade(cfg, items, y, p);
      DistinctSuffixesDistinctPaths(out1, st1, x, out2, st2, y, cfg.digest);
    }
  }

  /** Reconciling records paths made for their rows only. */
  lemma MadeForRowKeeps(cfg: Config, items: map<string, Item>, files: Files, items': map<string, Item>, files': Files,
                        id: string)
    requires Progress(cfg, items, files, items', files') && id in items && MadeForRow(cfg, id, items[id])
    ensures MadeForRow(cfg, id, items'[id])
  {
    ProgressAdvances(cfg, items, files, items', files');
    if items'[id].strmPath != items[id].strmPath && Wanted(items[id]) {
      PlaceIs(cfg, items[id].st, id);
    }
  }
}
