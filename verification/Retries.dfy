/**
  Any number of reconciles in a row, each failing or stopping wherever it may: exactly which
  items can lose their file, and retrying until one reconcile is clean.
 */
module Retries {
  import opened Wrappers
  import opened Order
  import opened Paths
  import opened Items
  import opened Strm
  import opened Failures
  import opened Loss
  import opened Losing
  import opened Reconcile
  import opened Recovery

  datatype State = State(items: map<string, Item>, files: Files)

  ghost predicate Leads(cfg: Config, w: State, w': State) {
    Interrupted(cfg, w.items, w.files, w'.items, w'.files)
  }

  /** The table and disk before the first of some reconciles, and after each. */
  ghost predicate Chained(cfg: Config, ws: seq<State>) {
    ws != [] && forall i | 0 <= i < |ws| - 1 :: Leads(cfg, ws[i], ws[i + 1])
  }

  /** Some reconciles in a row leave the item without a file of its own. */
  ghost predicate EverLoses(st: Stake)
    requires st.Ok()
  {
    exists ws :: Chained(st.cfg, ws) && ws[0] == State(st.items, st.files) && Lost(st, ws[|ws| - 1])
  }

  predicate Lost(st: Stake, w: State)
    requires st.Ok()
  {
    st.x in w.items && !st.Has(w.items[st.x].strmPath, w.files)
  }

  // --------------------------------------------------- items that never lose

  lemma AdvancesMore(cfg: Config, items: map<string, Item>, w: State, w': State)
    requires Advances(cfg, items, w.items) && Leads(cfg, w, w')
    ensures Advances(cfg, items, w'.items)
  {
    InterruptedIsProgress(cfg, w.items, w.files, w'.items, w'.files);
    ProgressAdvances(cfg, w.items, w.files, w'.items, w'.files);
    AdvancesTwice(cfg, items, w.items, w'.items);
  }

  lemma AdvancesTwice(cfg: Config, items: map<string, Item>, items1: map<string, Item>, items2: map<string, Item>)
    requires Advances(cfg, items, items1) && Advances(cfg, items1, items2)
    ensures Advances(cfg, items, items2)
  {
    forall id | id in items ensures RowAdvances(cfg, items, items2, id) {
      assert RowAdvances(cfg, items, items1, id) && RowAdvances(cfg, items1, items2, id);
      SameGoal(cfg, id, items[id], items1[id]);
    }
  }

  /** What is known of the item after each of the reconciles. */
  ghost predicate KeepsIn(st: Stake, p: Path, other: Option<Path>, w: State)
    requires st.Ok()
  {
    Advances(st.cfg, st.items, w.items) && Keeps(st, st.items.Keys, p, other, w.items[st.x].strmPath, w.files)
  }

  lemma KeepsNextTime(st: Stake, p: Path, other: Option<Path>, w: State, w': State)
    requires SafeItem(st, st.items.Keys) && Watched(st, st.items.Keys, st.items, p, other)
    requires KeepsIn(st, p, other, w) && Leads(st.cfg, w, w')
    ensures KeepsIn(st, p, other, w')
  {
    AdvancesMore(st.cfg, st.items, w, w');
    KeepsStopped(st, st.items.Keys, w.items, w.files, w'.items, w'.files, p, other);
    assert st.items.Keys + w.items.Keys == st.items.Keys;
  }

  lemma {:induction false} KeepsAlong(st: Stake, ws: seq<State>, i: nat, p: Path, other: Option<Path>)
    requires SafeItem(st, st.items.Keys) && Watched(st, st.items.Keys, st.items, p, other)
    requires Chained(st.cfg, ws) && i < |ws| && KeepsIn(st, p, other, ws[0])
    ensures KeepsIn(st, p, other, ws[i])
  {
    if i > 0 {
      var k := i - 1;
      KeepsAlong(st, ws, k, p, other);
      assert Leads(st.cfg, ws[k], ws[k + 1]);
      KeepsNextTime(st, p, other, ws[k], ws[i]);
    }
  }

  /** Whatever reconciles do, an item that cannot lose its file over them has one of its own, as it is then recorded. */
  lemma SafeForever(st: Stake, ws: seq<State>)
    requires SafeItem(st, st.items.Keys) && Chained(st.cfg, ws) && ws[0] == State(st.items, st.files)
    ensures var w := ws[|ws| - 1]; st.x in w.items && st.Has(w.items[st.x].strmPath, w.files)
  {
    var p, other := SafeStart(st, st.items.Keys);
    KeepsAlong(st, ws, |ws| - 1, p, other);
    var w := ws[|ws| - 1];
    KeepsHas(st, st.items.Keys, p, other, w.items[st.x].strmPath, w.files);
  }

  // ---------------------------------------------------- items that can lose

  lemma OneRunLoses(st: Stake, w: State)
    requires st.Ok() && Leads(st.cfg, State(st.items, st.files), w) && Lost(st, w)
    ensures EverLoses(st)
  {
    var ws := [State(st.items, st.files)];
    ChainMore(st.cfg, ws, w);
    ChainLost(st, ws + [w]);
  }

  lemma ChainLost(st: Stake, ws: seq<State>)
    requires st.Ok() && Chained(st.cfg, ws) && ws[0] == State(st.items, st.files) && Lost(st, ws[|ws| - 1])
    ensures EverLoses(st)
  {
  }

  lemma TwoRunsLose(st: Stake, w: State, w': State)
    requires st.Ok() && Leads(st.cfg, State(st.items, st.files), w) && Leads(st.cfg, w, w') && Lost(st, w')
    ensures EverLoses(st)
  {
    var ws := [State(st.items, st.files)];
    ChainMore(st.cfg, ws, w);
    ChainMore(st.cfg, ws + [w], w');
    ChainLost(st, ws + [w] + [w']);
  }

  lemma MayLoseEver(st: Stake)
    requires st.Ok() && MayLose(st)
    ensures EverLoses(st)
  {
    var items2: map<string, Item>, files2: Files :|
      Interrupted(st.cfg, st.items, st.files, items2, files2) && st.x in items2 &&
      !st.Has(items2[st.x].strmPath, files2);
    OneRunLoses(st, State(items2, files2));
  }

  /** The state after a reconcile in which only row y succeeds, saved or not. */
  ghost function After(cfg: Config, w: State, q: seq<string>, i: nat, saved: bool): State
    requires forall k | 0 <= k < |q| :: q[k] in w.items
  {
    var s := Pattern(w.files, JobsOf(cfg, w.items, q), {i}, |q|);
    State(if saved then Applied(w.items, s.updates) else w.items, s.files)
  }

  lemma AfterLeads(cfg: Config, w: State, q: seq<string>, i: nat, saved: bool)
    requires Sorts(q, w.items.Keys)
    ensures Leads(cfg, w, After(cfg, w, q, i, saved))
  {
    LuckyStops(cfg, w.items, w.files, q, {i});
  }

  /** A row moves the item's file, and in a later reconcile another takes it. */
  lemma MovedThenTakenLater(st: Stake, q: seq<string>, y: string, z: string, p: Path, other: Path)
    requires st.Ok() && Sorts(q, st.items.Keys) && other != p && st.IsPair(p, Some(other))
    requires st.Moves(y, p, Some(other)) && st.TakesOnly(z, other, Some(p))
    ensures EverLoses(st)
  {
    var w0 := State(st.items, st.files);
    var i := RowAsJob(st, q, y);
    var k := RowAsJob(st, q, z);
    var w1 := After(st.cfg, w0, q, i, false);
    var w2 := After(st.cfg, w1, q, k, false);
    AfterLeads(st.cfg, w0, q, i, false);
    AfterLeads(st.cfg, w1, q, k, false);
    MovedJobsLater(st, JobsOf(st.cfg, st.items, q), i, k, p, other);
    PairLost(st, p, other, w2);
    TwoRunsLose(st, w1, w2);
  }

  lemma MovedJobsLater(st: Stake, jobs: seq<Job>, i: nat, k: nat, p: Path, other: Path)
    requires st.Ok() && JobActs(jobs, i) && JobActs(jobs, k)
    requires JobTakes(st, jobs[i], p) && JobTakes(st, jobs[k], other) && !JobGives(st, jobs[k], p)
    ensures var f := Pattern(Pattern(st.files, jobs, {i}, |jobs|).files, jobs, {k}, |jobs|).files;
            !st.Mine(f, p) && !st.Mine(f, other)
  {
    var f1 := Pattern(st.files, jobs, {i}, |jobs|).files;
    TakenAtEnd(st, st.files, jobs, {i}, i, p);
    NotMineStays(st, f1, jobs, {k}, 0, |jobs|, p);
    TakenAtEnd(st, f1, jobs, {k}, k, other);
  }

  lemma PairLost(st: Stake, p: Path, other: Path, w: State)
    requires st.Ok() && st.IsPair(p, Some(other)) && w.items == st.items
    requires !st.Mine(w.files, p) && !st.Mine(w.files, other)
    ensures Lost(st, w)
  {
  }

  /** If every path the item has a file at is doomed over several reconciles, they can take them all. */
  lemma DoomedEver(st: Stake)
    requires st.Ok() && st.AllDoomed(st.items.Keys)
    ensures EverLoses(st)
  {
    SortExists(st.items.Keys);
    var q :| Sorts(q, st.items.Keys);
    var p, other := st.Own(), st.Old();
    if p in st.files && !exists y :: st.TakesOnly(y, p, other) {
      var y, z :| st.Moves(y, p, other) && st.Follows(st.items.Keys, y, z) && st.TakesOnly(z, other.value, Some(p));
      MovedThenTakenLater(st, q, y, z, p, other.value);
    } else if other.Some? && other.value in st.files && !exists y :: st.TakesOnly(y, other.value, Some(p)) {
      var y, z :| st.Moves(y, other.value, Some(p)) && st.Follows(st.items.Keys, y, z) && st.TakesOnly(z, p, other);
      MovedThenTakenLater(st, q, y, z, other.value, p);
    } else {
      TakenSeparately(st, st.files, q, p, other);
      TakenIsLost(st);
      MayLoseEver(st);
    }
  }

  /** The item's row succeeds, and in a later reconcile another clears its new file. */
  lemma OvertakenLater(st: Stake, q: seq<string>, z: string)
    requires st.Ok() && Sorts(q, st.items.Keys) && Acts(st.cfg, st.items, st.x) && z != st.x && st.Clears(z, st.Own())
    ensures EverLoses(st)
  {
    var i := RowAsJob(st, q, st.x);
    var k := RowAsJob(st, q, z);
    OvertakenRuns(st, q, i, k);
  }

  lemma OvertakenRuns(st: Stake, q: seq<string>, i: nat, k: nat)
    requires st.Ok() && Sorts(q, st.items.Keys) && i < |q| && k < |q| && q[i] == st.x && q[k] != st.x
    requires JobActs(JobsOf(st.cfg, st.items, q), i) && st.Clears(q[k], st.Own())
    ensures EverLoses(st)
  {
    var w0 := State(st.items, st.files);
    var w1 := After(st.cfg, w0, q, i, true);
    AfterLeads(st.cfg, w0, q, i, true);
    OnlyOwnSaved(st, q, i, k, w1.items);
    AfterAdvances(st, w1);
    AfterLeads(st.cfg, w1, q, k, false);
    ClearedLater(st, q, k, w1);
    TwoRunsLose(st, w1, After(st.cfg, w1, q, k, false));
  }

  lemma AfterAdvances(st: Stake, w: State)
    requires Leads(st.cfg, State(st.items, st.files), w)
    ensures Advances(st.cfg, st.items, w.items)
  {
    InterruptedIsProgress(st.cfg, st.items, st.files, w.items, w.files);
    ProgressAdvances(st.cfg, st.items, st.files, w.items, w.files);
  }

  /** After the first, only the item's record has changed, to where its file belongs. */
  lemma OnlyOwnSaved(st: Stake, q: seq<string>, i: nat, k: nat, items1: map<string, Item>)
    requires st.Ok() && Sorts(q, st.items.Keys) && i < |q| && k < |q| && q[i] == st.x && q[k] != st.x
    requires JobActs(JobsOf(st.cfg, st.items, q), i)
    requires items1 == Applied(st.items, Pattern(st.files, JobsOf(st.cfg, st.items, q), {i}, |q|).updates)
    ensures items1.Keys == st.items.Keys && items1[st.x].strmPath == Some(st.Own()) && items1[q[k]] == st.items[q[k]]
  {
    var jobs := JobsOf(st.cfg, st.items, q);
    DistinctJobs(st.cfg, st.items, q, i);
    DistinctJobs(st.cfg, st.items, q, k);
    SavedJobs(st.files, jobs, i, k, JobOf(st.cfg, st.x, st.items[st.x]), JobOf(st.cfg, q[k], st.items[q[k]]));
  }

  lemma SavedJobs(files1: Files, jobs: seq<Job>, i: nat, k: nat, own: Job, other: Job)
    requires i < |jobs| && k < |jobs| && i != k && jobs[i] == own && jobs[k] == other && own.goal.Some?
    requires JobActs(jobs, i)
    requires forall m | 0 <= m < |jobs| && m != i :: jobs[m].id != own.id
    requires forall m | 0 <= m < |jobs| && m != k :: jobs[m].id != other.id
    ensures var updates := Pattern(files1, jobs, {i}, |jobs|).updates;
            && PathAfter(updates, own.id, own.recorded) == own.goal
            && PathAfter(updates, other.id, other.recorded) == other.recorded
  {
    LuckyRecorded(files1, jobs, {i}, i, |jobs|);
    UnluckyUnrecorded(files1, jobs, i, k, |jobs|);
  }

  /** A job that is not lucky is recorded nowhere new. */
  lemma {:induction false} UnluckyUnrecorded(files1: Files, jobs: seq<Job>, i: nat, k: nat, n: nat)
    requires n <= |jobs| && k < |jobs| && k != i && forall m | 0 <= m < |jobs| && m != k :: jobs[m].id != jobs[k].id
    ensures PathAfter(Pattern(files1, jobs, {i}, n).updates, jobs[k].id, jobs[k].recorded) == jobs[k].recorded
  {
    if n > 0 {
      UnluckyUnrecorded(files1, jobs, i, k, n - 1);
      if n - 1 != k {
        OtherUpdates(jobs[n - 1], Pattern(files1, jobs, {i}, n - 1), n - 1 in {i}, jobs[k].id, jobs[k].recorded);
      }
    }
  }

  lemma ClearedLater(st: Stake, q: seq<string>, k: nat, w: State)
    requires st.Ok() && Sorts(q, st.items.Keys) && Advances(st.cfg, st.items, w.items) && k < |q|
    requires w.items[q[k]] == st.items[q[k]] && st.Clears(q[k], st.Own()) && w.items[st.x].strmPath == Some(st.Own())
    ensures Lost(st, After(st.cfg, w, q, k, false))
  {
    var jobs := JobsOf(st.cfg, w.items, q);
    ActsSame(st.cfg, st.items, w.items, q[k]);
    var m := ActsAt(st.cfg, w.items, q, q[k]);
    LessTotal(q[m], q[k]);
    assert m == k;
    TakenAtEnd(st, w.files, jobs, {k}, k, st.Own());
  }

  lemma OvertakenEver(st: Stake)
    requires st.Ok() && st.Overtaken(st.items.Keys)
    ensures EverLoses(st)
  {
    SortExists(st.items.Keys);
    var q :| Sorts(q, st.items.Keys);
    var z :| z != st.x && st.Follows(st.items.Keys, st.x, z) && st.Clears(z, st.Own());
    OvertakenLater(st, q, z);
  }

  /**
    A wanted item that has a file may lose its last one over some reconciles in a row exactly when
    another row clears its new file once it is recorded, or each path it has a file at is
    doomed, now whatever the order of the rows: each may come in a reconcile of its own.
   */
  lemma EverLosesExactly(st: Stake)
    requires st.Ok() && HasFile(st.cfg, st.x, st.items[st.x], st.files)
    ensures EverLoses(st) <==> st.CanLose(st.items.Keys)
  {
    if st.Overtaken(st.items.Keys) {
      OvertakenEver(st);
    } else if st.AllDoomed(st.items.Keys) {
      DoomedEver(st);
    } else if EverLoses(st) {
      var ws :| Chained(st.cfg, ws) && ws[0] == State(st.items, st.files) && Lost(st, ws[|ws| - 1]);
      SafeForever(st, ws);
    }
  }

  /** An item none of whose paths another row records or wants never loses its last file. */
  lemma UncontestedIsSafe(st: Stake, before: set<string>)
    requires st.Ok() && HasFile(st.cfg, st.x, st.items[st.x], st.files) && !Contested(st.cfg, st.items, st.x)
    ensures SafeItem(st, before)
  {
    NeverOvertaken(st, before);
    OnlyItself(st, st.Own());
    if st.Old().Some? {
      OnlyItself(st, st.Old().value);
      OldNotDoomed(st, before, st.Old().value);
    }
  }

  lemma NeverOvertaken(st: Stake, before: set<string>)
    requires st.Ok() && !Contested(st.cfg, st.items, st.x)
    ensures !st.Overtaken(before)
  {
    OnlyItself(st, st.Own());
    assert forall z | st.Clears(z, st.Own()) :: st.Takes(z, st.Own());
  }

  lemma OldNotDoomed(st: Stake, before: set<string>, o: Path)
    requires st.Ok() && st.Old() == Some(o)
    requires forall y | st.Takes(y, o) :: y == st.x
    requires forall y :: !st.Takes(y, st.Own())
    ensures !st.Doomed(before, o, Some(st.Own()))
  {
    OwnGives(st);
    forall y ensures !st.TakesOnly(y, o, Some(st.Own())) {
      assert st.Takes(y, o) ==> y == st.x && Acts(st.cfg, st.items, y);
    }
    forall z ensures !st.TakesOnly(z, st.Own(), Some(o)) {
    }
  }

  lemma OwnGives(st: Stake)
    requires st.Ok()
    ensures Acts(st.cfg, st.items, st.x) ==> st.Gives(st.x, Some(st.Own()))
  {
  }

  lemma OnlyItself(st: Stake, p: Path)
    requires st.Ok() && !Contested(st.cfg, st.items, st.x) && (p == st.Own() || st.Old() == Some(p))
    ensures forall y | st.Takes(y, p) :: y == st.x
    ensures p == st.Own() ==> forall y :: !st.Takes(y, p)
  {
    forall y | st.Takes(y, p) ensures y == st.x && p != st.Own() {
      assert Uses(st.cfg, st.items, y, p) && Uses(st.cfg, st.items, st.x, p);
    }
  }

  // ------------------------------------------------------ until one is clean

  /** Each item that cannot lose its file over any number of reconciles has one of its own, as it is now recorded. */
  ghost predicate KeepsSafeItems(cfg: Config, items0: map<string, Item>, files0: Files, items: map<string, Item>,
                                 files: Files) {
    forall x | SafeItem(Stake(cfg, items0, files0, x), items0.Keys) ::
      x in items && Stake(cfg, items0, files0, x).Has(items[x].strmPath, files)
  }

  lemma ChainKeeps(cfg: Config, ws: seq<State>)
    requires Chained(cfg, ws)
    ensures KeepsSafeItems(cfg, ws[0].items, ws[0].files, ws[|ws| - 1].items, ws[|ws| - 1].files)
  {
    var w, w' := ws[0], ws[|ws| - 1];
    forall x | SafeItem(Stake(cfg, w.items, w.files, x), w.items.Keys)
      ensures x in w'.items && Stake(cfg, w.items, w.files, x).Has(w'.items[x].strmPath, w'.files)
    {
      SafeForever(Stake(cfg, w.items, w.files, x), ws);
    }
  }

  lemma ChainMore(cfg: Config, ws: seq<State>, w: State)
    requires Chained(cfg, ws) && Leads(cfg, ws[|ws| - 1], w)
    ensures Chained(cfg, ws + [w])
  {
    var more := ws + [w];
    forall i | 0 <= i < |more| - 1 ensures Leads(cfg, more[i], more[i + 1]) {
      if i < |ws| - 1 {
        assert Leads(cfg, ws[i], ws[i + 1]);
      }
    }
  }

  lemma NothingYet(cfg: Config, items: map<string, Item>, files: Files)
    ensures Progress(cfg, items, files, items, files)
  {
    forall p ensures Framed(cfg, items, files, files, p) {
    }
  }

  /** Where a reconcile stopped, as its trace tells. */
  lemma StoppedLeads(cfg: Config, tr: Trace, w: State, w': State)
    requires RowsRan(cfg, w.items, w.files, tr) && StopsAt(cfg, w.items, tr, w'.items, w'.files)
    ensures Leads(cfg, w, w')
  {
  }

  /**
    Cycle after cycle until one is clean: the outcome is that of one undisturbed run, and
    at every point in between each item that cannot lose its file has one.
   */
  method ReconcileUntilClean(lib: Library, tries: nat) returns (clean: bool)
    modifies lib`files, lib.table`items
    ensures Progress(lib.cfg, old(lib.table.items), old(lib.files), lib.table.items, lib.files)
    ensures KeepsSafeItems(lib.cfg, old(lib.table.items), old(lib.files), lib.table.items, lib.files)
    ensures clean ==> lib.table.items == Recordings(lib.cfg, old(lib.table.items))
    ensures clean && !Overruns(lib.cfg, old(lib.table.items)) && Confined(lib.cfg, old(lib.table.items)) ==>
              CleanDisk(lib.cfg, old(lib.table.items), old(lib.files), lib.files)
  {
    clean := false;
    ghost var items0, files0 := lib.table.items, lib.files;
    ghost var ws := [State(items0, files0)];
    NothingYet(lib.cfg, items0, files0);
    for i := 0 to tries
      invariant !clean
      invariant Progress(lib.cfg, items0, files0, lib.table.items, lib.files)
      invariant Chained(lib.cfg, ws) && ws[0] == State(items0, files0)
      invariant ws[|ws| - 1] == State(lib.table.items, lib.files)
    {
      ghost var w := State(lib.table.items, lib.files);
      var o, failed;
      ghost var tr;
      o, failed, tr := lib.Reconcile();
      ghost var w' := State(lib.table.items, lib.files);
      StoppedLeads(lib.cfg, tr, w, w');
      ChainMore(lib.cfg, ws, w');
      ws := ws + [w'];
      ProgressComposes(lib.cfg, items0, files0, w.items, w.files, w'.items, w'.files);
      if o == Done && failed == 0 {
        CleanFrom(lib.cfg, items0, files0, w.items, w.files, lib.files);
        ChainKeeps(lib.cfg, ws);
        return true;
      }
    }
    ChainKeeps(lib.cfg, ws);
  }
}
