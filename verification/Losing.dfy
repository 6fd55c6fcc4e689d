/**
  Reconciles that do take an item's last file, and so exactly when one can: for each item
  that Loss does not call safe, a pattern of failures that loses its file.
 */
module Losing {
  import opened Wrappers
  import opened Order
  import opened Election
  import opened Paths
  import opened Items
  import opened Strm
  import opened Failures
  import opened Loss

  // --------------------------------------------------- chosen jobs that take

  predicate JobTakes(st: Stake, j: Job, p: Path)
    requires st.Ok()
  {
    p in j.Leaving() || (j.goal == Some(p) && !st.Counts(p, j.url))
  }

  predicate JobGives(st: Stake, j: Job, p: Path)
    requires st.Ok()
  {
    j.goal == Some(p) && st.Counts(p, j.url)
  }

  lemma NotMineNext(st: Stake, j: Job, s: Run, ok: bool, p: Path)
    requires st.Ok() && !st.Mine(s.files, p) && (ok ==> !JobGives(st, j, p))
    ensures !st.Mine(Outcome(j, s, ok).files, p)
  {
  }

  lemma TakenNext(st: Stake, j: Job, s: Run, p: Path)
    requires st.Ok() && JobTakes(st, j, p) && (j.goal.Some? ==> j.goal.value !in s.claimed)
    ensures !st.Mine(Outcome(j, s, true).files, p)
  {
  }

  /** A file taken stays taken unless a lucky job gives one there. */
  lemma {:induction false} NotMineStays(st: Stake, files1: Files, jobs: seq<Job>, lucky: set<nat>, i: nat, k: nat,
                                        p: Path)
    requires st.Ok() && i <= k <= |jobs| && !st.Mine(Pattern(files1, jobs, lucky, i).files, p)
    requires forall m | i <= m < k && m in lucky :: !JobGives(st, jobs[m], p)
    ensures !st.Mine(Pattern(files1, jobs, lucky, k).files, p)
    decreases k
  {
    if i < k {
      NotMineStays(st, files1, jobs, lucky, i, k - 1, p);
      NotMineNext(st, jobs[k - 1], Pattern(files1, jobs, lucky, k - 1), k - 1 in lucky, p);
    }
  }

  /** If a lucky job takes p, and no later lucky one gives it back, it ends up taken. */
  lemma TakenAtEnd(st: Stake, files1: Files, jobs: seq<Job>, lucky: set<nat>, y: nat, p: Path)
    requires st.Ok() && y in lucky && JobActs(jobs, y) && JobTakes(st, jobs[y], p)
    requires forall m | y < m < |jobs| && m in lucky :: !JobGives(st, jobs[m], p)
    ensures !st.Mine(Pattern(files1, jobs, lucky, |jobs|).files, p)
  {
    ActingUnclaimed(files1, jobs, lucky, y);
    TakenNext(st, jobs[y], Pattern(files1, jobs, lucky, y), p);
    NotMineStays(st, files1, jobs, lucky, y + 1, |jobs|, p);
  }

  /** The item's file at p is gone at the end if there was none or a lucky job takes it, and none gives one. */
  lemma GoneAtEnd(st: Stake, files1: Files, jobs: seq<Job>, lucky: set<nat>, p: Path)
    requires st.Ok() && forall m | m in lucky && m < |jobs| :: !JobGives(st, jobs[m], p)
    requires st.Mine(files1, p) ==> exists y :: y in lucky && JobActs(jobs, y) && JobTakes(st, jobs[y], p)
    ensures !st.Mine(Pattern(files1, jobs, lucky, |jobs|).files, p)
  {
    if st.Mine(files1, p) {
      var y :| y in lucky && JobActs(jobs, y) && JobTakes(st, jobs[y], p);
      TakenAtEnd(st, files1, jobs, lucky, y, p);
    } else {
      NotMineStays(st, files1, jobs, lucky, 0, |jobs|, p);
    }
  }

  // ------------------------------------------------------------ rows as jobs

  /** Row y as a job, at its position, takes and gives what the row does. */
  lemma RowAsJob(st: Stake, q: seq<string>, y: string) returns (i: nat)
    requires st.Ok() && Sorts(q, st.items.Keys) && Acts(st.cfg, st.items, y)
    ensures i < |q| && q[i] == y && JobActs(JobsOf(st.cfg, st.items, q), i)
    ensures JobsOf(st.cfg, st.items, q)[i] == JobOf(st.cfg, y, st.items[y])
    ensures forall p :: st.Takes(y, p) == JobTakes(st, JobsOf(st.cfg, st.items, q)[i], p)
    ensures forall p :: st.Gives(y, Some(p)) == JobGives(st, JobsOf(st.cfg, st.items, q)[i], p)
  {
    i := ActsAt(st.cfg, st.items, q, y);
  }

  /** An unsaved reconcile from the disk files1 leaves no file of the item at p or at other. */
  ghost predicate BothTaken(st: Stake, files1: Files, p: Path, other: Option<Path>)
    requires st.Ok()
  {
    exists f ::
      && Interrupted(st.cfg, st.items, files1, st.items, f)
      && !st.Mine(f, p) && (other.Some? ==> !st.Mine(f, other.value))
  }

  lemma LuckyTakes(st: Stake, files1: Files, q: seq<string>, lucky: set<nat>, p: Path, other: Option<Path>)
    requires st.Ok() && Sorts(q, st.items.Keys)
    requires var f := Pattern(files1, JobsOf(st.cfg, st.items, q), lucky, |q|).files;
             !st.Mine(f, p) && (other.Some? ==> !st.Mine(f, other.value))
    ensures BothTaken(st, files1, p, other)
  {
    LuckyStops(st.cfg, st.items, files1, q, lucky);
  }

  /** The positions of a row that takes the item's file at p, if there is one, and does not give it one at other. */
  lemma TakerOf(st: Stake, files1: Files, q: seq<string>, p: Path, other: Option<Path>) returns (lucky: set<nat>)
    requires st.Ok() && Sorts(q, st.items.Keys) && other != Some(p)
    requires st.Mine(files1, p) ==> exists y :: st.TakesOnly(y, p, other)
    ensures var jobs := JobsOf(st.cfg, st.items, q);
            && (st.Mine(files1, p) ==> exists y :: y in lucky && JobActs(jobs, y) && JobTakes(st, jobs[y], p))
            && forall m | m in lucky :: m < |jobs| && !JobGives(st, jobs[m], p) &&
                                        (other.Some? ==> !JobGives(st, jobs[m], other.value))
  {
    if st.Mine(files1, p) {
      var y :| st.TakesOnly(y, p, other);
      var i := RowAsJob(st, q, y);
      NoTakerGives(st, JobsOf(st.cfg, st.items, q)[i], p);
      lucky := {i};
    } else {
      lucky := {};
    }
  }

  lemma NoTakerGives(st: Stake, j: Job, p: Path)
    requires st.Ok() && JobTakes(st, j, p)
    ensures !JobGives(st, j, p)
  {
  }

  /** Each path taken, or without a file of the item, by rows that give it none at the other. */
  lemma TakenSeparately(st: Stake, files1: Files, q: seq<string>, p: Path, other: Option<Path>)
    requires st.Ok() && Sorts(q, st.items.Keys) && other != Some(p)
    requires st.Mine(files1, p) ==> exists y :: st.TakesOnly(y, p, other)
    requires other.Some? && st.Mine(files1, other.value) ==> exists y :: st.TakesOnly(y, other.value, Some(p))
    ensures BothTaken(st, files1, p, other)
  {
    var jobs := JobsOf(st.cfg, st.items, q);
    var lucky := TakerOf(st, files1, q, p, other);
    if other.Some? {
      var lucky' := TakerOf(st, files1, q, other.value, Some(p));
      GoneAtEnd(st, files1, jobs, lucky + lucky', p);
      GoneAtEnd(st, files1, jobs, lucky + lucky', other.value);
      LuckyTakes(st, files1, q, lucky + lucky', p, other);
    } else {
      GoneAtEnd(st, files1, jobs, lucky, p);
      LuckyTakes(st, files1, q, lucky, p, other);
    }
  }

  /** A file moved to other and then taken there by a later row. */
  lemma MovedThenTaken(st: Stake, files1: Files, q: seq<string>, y: string, z: string, p: Path, other: Path)
    requires st.Ok() && Sorts(q, st.items.Keys) && Less(y, z) && other != p
    requires st.Moves(y, p, Some(other)) && st.TakesOnly(z, other, Some(p))
    ensures BothTaken(st, files1, p, Some(other))
  {
    var jobs := JobsOf(st.cfg, st.items, q);
    var i := RowAsJob(st, q, y);
    var k := RowAsJob(st, q, z);
    OrderOfPositions(q, st.items.Keys, i, k);
    MovedJobs(st, files1, jobs, i, k, p, other);
    LuckyTakes(st, files1, q, {i, k}, p, Some(other));
  }

  lemma MovedJobs(st: Stake, files1: Files, jobs: seq<Job>, i: nat, k: nat, p: Path, other: Path)
    requires st.Ok() && i < k && JobActs(jobs, i) && JobActs(jobs, k)
    requires JobTakes(st, jobs[i], p) && JobTakes(st, jobs[k], other) && !JobGives(st, jobs[k], p)
    ensures var f := Pattern(files1, jobs, {i, k}, |jobs|).files; !st.Mine(f, p) && !st.Mine(f, other)
  {
    TakenAtEnd(st, files1, jobs, {i, k}, i, p);
    TakenAtEnd(st, files1, jobs, {i, k}, k, other);
  }

  lemma BothTakenSwap(st: Stake, files1: Files, p: Path, other: Path)
    requires st.Ok() && BothTaken(st, files1, other, Some(p))
    ensures BothTaken(st, files1, p, Some(other))
  {
    var f :| Interrupted(st.cfg, st.items, files1, st.items, f) && !st.Mine(f, other) && !st.Mine(f, p);
  }

  /** If every path the item has a file at is doomed within one reconcile, one reconcile takes them all. */
  lemma DoomedTaken(st: Stake, p: Path, other: Option<Path>)
    requires st.Ok() && other != Some(p)
    requires p in st.files ==> st.Doomed({}, p, other)
    requires other.Some? && other.value in st.files ==> st.Doomed({}, other.value, Some(p))
    ensures BothTaken(st, st.files, p, other)
  {
    SortExists(st.items.Keys);
    var q :| Sorts(q, st.items.Keys);
    if p in st.files && !exists y :: st.TakesOnly(y, p, other) {
      var y, z :| st.Moves(y, p, other) && st.Follows({}, y, z) && st.TakesOnly(z, other.value, Some(p));
      MovedThenTaken(st, st.files, q, y, z, p, other.value);
    } else if other.Some? && other.value in st.files && !exists y :: st.TakesOnly(y, other.value, Some(p)) {
      var y, z :| st.Moves(y, other.value, Some(p)) && st.Follows({}, y, z) && st.TakesOnly(z, p, other);
      MovedThenTaken(st, st.files, q, y, z, other.value, p);
      BothTakenSwap(st, st.files, p, other.value);
    } else {
      TakenSeparately(st, st.files, q, p, other);
    }
  }

  // ------------------------------------------------ recorded and overtaken

  /** Once a lucky job has run, its row is recorded at its goal. */
  lemma {:induction false} LuckyRecorded(files1: Files, jobs: seq<Job>, lucky: set<nat>, i: nat, k: nat)
    requires i < k <= |jobs| && i in lucky && JobActs(jobs, i) && jobs[i].goal.Some?
    requires forall m | 0 <= m < |jobs| && m != i :: jobs[m].id != jobs[i].id
    ensures PathAfter(Pattern(files1, jobs, lucky, k).updates, jobs[i].id, jobs[i].recorded) == jobs[i].goal
    decreases k
  {
    var s := Pattern(files1, jobs, lucky, k - 1);
    if k - 1 == i {
      ActingUnclaimed(files1, jobs, lucky, i);
      Unrecorded(files1, jobs, lucky, i, i);
      PathAfterMore(s.updates, PathUpdate(jobs[i].id, jobs[i].goal), jobs[i].id, jobs[i].recorded);
    } else {
      LuckyRecorded(files1, jobs, lucky, i, k - 1);
      OtherUpdates(jobs[k - 1], s, k - 1 in lucky, jobs[i].id, jobs[i].recorded);
    }
  }

  lemma OtherUpdates(j: Job, s: Run, ok: bool, id: string, path: Option<Path>)
    requires j.id != id
    ensures PathAfter(Outcome(j, s, ok).updates, id, path) == PathAfter(s.updates, id, path)
  {
    PathAfterMore(s.updates, PathUpdate(j.id, j.goal), id, path);
  }

  lemma {:induction false} Unrecorded(files1: Files, jobs: seq<Job>, lucky: set<nat>, i: nat, k: nat)
    requires k <= i < |jobs| && forall m | 0 <= m < |jobs| && m != i :: jobs[m].id != jobs[i].id
    ensures PathAfter(Pattern(files1, jobs, lucky, k).updates, jobs[i].id, jobs[i].recorded) == jobs[i].recorded
  {
    if k > 0 {
      Unrecorded(files1, jobs, lucky, i, k - 1);
      OtherUpdates(jobs[k - 1], Pattern(files1, jobs, lucky, k - 1), k - 1 in lucky, jobs[i].id, jobs[i].recorded);
    }
  }

  lemma DistinctJobs(cfg: Config, items: map<string, Item>, q: seq<string>, i: nat)
    requires Sorts(q, items.Keys) && i < |q|
    ensures var jobs := JobsOf(cfg, items, q); forall m | 0 <= m < |jobs| && m != i :: jobs[m].id != jobs[i].id
  {
    var jobs := JobsOf(cfg, items, q);
    forall m | 0 <= m < |jobs| && m != i ensures jobs[m].id != jobs[i].id {
      LessTotal(q[i], q[i]);
      assert if m < i then Less(q[m], q[i]) else Less(q[i], q[m]);
    }
  }

  /** The item's row succeeds and a later one clears its new file; both are saved. */
  lemma OvertakenLoses(st: Stake)
    requires st.Ok() && st.Overtaken({})
    ensures MayLose(st)
  {
    SortExists(st.items.Keys);
    var q :| Sorts(q, st.items.Keys);
    var z :| z != st.x && st.Follows({}, st.x, z) && st.Clears(z, st.Own());
    var i := RowAsJob(st, q, st.x);
    var k := RowAsJob(st, q, z);
    OrderOfPositions(q, st.items.Keys, i, k);
    LuckyOvertaken(st, q, i, k);
  }

  lemma LuckyOvertaken(st: Stake, q: seq<string>, i: nat, k: nat)
    requires st.Ok() && Sorts(q, st.items.Keys) && i < k < |q| && q[i] == st.x
    requires var jobs := JobsOf(st.cfg, st.items, q);
             JobActs(jobs, i) && JobActs(jobs, k) && JobTakes(st, jobs[k], st.Own())
    ensures MayLose(st)
  {
    OvertakenEnd(st, q, i, k);
    LuckyStops(st.cfg, st.items, st.files, q, {i, k});
    SavedLoses(st, Pattern(st.files, JobsOf(st.cfg, st.items, q), {i, k}, |q|));
  }

  lemma OvertakenEnd(st: Stake, q: seq<string>, i: nat, k: nat)
    requires st.Ok() && Sorts(q, st.items.Keys) && i < k < |q| && q[i] == st.x
    requires var jobs := JobsOf(st.cfg, st.items, q);
             JobActs(jobs, i) && JobActs(jobs, k) && JobTakes(st, jobs[k], st.Own())
    ensures var s := Pattern(st.files, JobsOf(st.cfg, st.items, q), {i, k}, |q|);
            PathSoFar(st.items, st.x, s) == Some(st.Own()) && !st.Mine(s.files, st.Own())
  {
    DistinctJobs(st.cfg, st.items, q, i);
    OvertakenJobs(st, st.files, JobsOf(st.cfg, st.items, q), i, k, JobOf(st.cfg, st.x, st.items[st.x]), st.Own());
  }

  lemma OvertakenJobs(st: Stake, files1: Files, jobs: seq<Job>, i: nat, k: nat, own: Job, d: Path)
    requires st.Ok() && i < k && JobActs(jobs, i) && JobActs(jobs, k) && jobs[i] == own && own.goal == Some(d)
    requires JobTakes(st, jobs[k], d) && forall m | 0 <= m < |jobs| && m != i :: jobs[m].id != own.id
    ensures var s := Pattern(files1, jobs, {i, k}, |jobs|);
            PathAfter(s.updates, own.id, own.recorded) == Some(d) && !st.Mine(s.files, d)
  {
    LuckyRecorded(files1, jobs, {i, k}, i, |jobs|);
    TakenAtEnd(st, files1, jobs, {i, k}, k, d);
  }

  lemma SavedLoses(st: Stake, s: Run)
    requires st.Ok() && PathSoFar(st.items, st.x, s) == Some(st.Own()) && !st.Mine(s.files, st.Own())
    requires Interrupted(st.cfg, st.items, st.files, Applied(st.items, s.updates), s.files)
    ensures MayLose(st)
  {
    LostWhenSaved(st, st.items, s);
  }

  /** Recorded at its own path, with no file of its own there. */
  lemma LostWhenSaved(st: Stake, items1: map<string, Item>, s: Run)
    requires st.Ok() && st.x in items1 && PathSoFar(items1, st.x, s) == Some(st.Own()) && !st.Mine(s.files, st.Own())
    ensures st.x in Applied(items1, s.updates) && !st.Has(Applied(items1, s.updates)[st.x].strmPath, s.files)
  {
  }

  // ------------------------------------------------------------ exactly when

  /** Some reconcile, failing and stopping wherever it may, leaves the item without a file of its own. */
  ghost predicate MayLose(st: Stake)
    requires st.Ok()
  {
    exists items2: map<string, Item>, files2: Files ::
      Interrupted(st.cfg, st.items, st.files, items2, files2) && st.x in items2 &&
      !st.Has(items2[st.x].strmPath, files2)
  }

  lemma TakenIsLost(st: Stake)
    requires st.Ok() && BothTaken(st, st.files, st.Own(), st.Old())
    ensures MayLose(st)
  {
    var f :| Interrupted(st.cfg, st.items, st.files, st.items, f) && !st.Mine(f, st.Own()) &&
      (st.Old().Some? ==> !st.Mine(f, st.Old().value));
    assert !st.Has(st.items[st.x].strmPath, f);
  }

  /**
    A wanted item that has a file may lose its last one in one reconcile exactly when a later row clears
    its new file once it is recorded, or each path it has a file at is doomed: taken by a
    row that gives it none at the other, or moved to the other and then taken there by a later row.
   */
  lemma LosesExactly(st: Stake)
    requires st.Ok() && HasFile(st.cfg, st.x, st.items[st.x], st.files)
    ensures MayLose(st) <==> st.CanLose({})
  {
    if st.Overtaken({}) {
      OvertakenLoses(st);
    } else if st.AllDoomed({}) {
      DoomedTaken(st, st.Own(), st.Old());
      TakenIsLost(st);
    } else if MayLose(st) {
      var items2: map<string, Item>, files2: Files :|
        Interrupted(st.cfg, st.items, st.files, items2, files2) && st.x in items2 &&
        !st.Has(items2[st.x].strmPath, files2);
      SafeKept(st, items2, files2);
    }
  }

  // ------------------------------------------------------------ some inputs

  /** Two rows that record one file: if writing the wanted one's new file fails, clearing the other takes its last. */
  lemma SharedRecordLoses(cfg: Config, a: string, b: string, st: ItemState, st': ItemState, p: Path)
    requires a != b && Wanted(Item(st, Some(p))) && !Wanted(Item(st', Some(p)))
    requires p != DesiredPath(cfg, a, Item(st, Some(p))) && !Temp(p)
    ensures var items := map[a := Item(st, Some(p)), b := Item(st', Some(p))];
            HasFile(cfg, a, items[a], map[p := ""]) && MayLose(Stake(cfg, items, map[p := ""], a))
  {
    var items := map[a := Item(st, Some(p)), b := Item(st', Some(p))];
    assert items[a] == Item(st, Some(p)) && items[b] == Item(st', Some(p));
    LastFileRemoved(Stake(cfg, items, map[p := ""], a), b, p);
  }

  lemma LastFileRemoved(st: Stake, b: string, p: Path)
    requires st.Ok() && b in st.items && !Wanted(st.items[b]) && st.items[b].strmPath == Some(p)
    requires st.Old() == Some(p) && st.files.Keys == {p}
    ensures HasFile(st.cfg, st.x, st.items[st.x], st.files) && MayLose(st)
  {
    assert st.Own() !in st.files;
    ClearedByUnwanted(st, b, p);
    LosesExactly(st);
  }

  lemma ClearedByUnwanted(st: Stake, b: string, p: Path)
    requires st.Ok() && b in st.items && !Wanted(st.items[b]) && st.items[b].strmPath == Some(p)
    ensures st.TakesOnly(b, p, Some(st.Own()))
  {
    assert st.Clears(b, p);
  }

  /** Another row takes the path the item is about to leave: if writing the item's new file fails, it has none. */
  lemma TakenPathLoses(st: Stake, y: string, o: Path)
    requires st.Ok() && st.Old() == Some(o) && st.files.Keys == {o}
    requires Acts(st.cfg, st.items, y) && Goal(st.cfg, y, st.items[y]) == Some(o)
    requires StreamURL(st.cfg, st.items[y]) != st.files[o]
    requires StreamURL(st.cfg, st.items[y]) != StreamURL(st.cfg, st.items[st.x])
    ensures HasFile(st.cfg, st.x, st.items[st.x], st.files) && MayLose(st)
  {
    assert st.Writes(y, o) && st.TakesOnly(y, o, Some(st.Own()));
    assert st.Own() !in st.files;
    LosesExactly(st);
  }

  /** Two wanted rows about to exchange their paths. */
  function Exchanging(x: string, y: string, stx: ItemState, sty: ItemState, d: Path, o: Path): map<string, Item> {
    map[x := Item(stx, Some(o)), y := Item(sty, Some(d))]
  }

  /** The run in which both succeed: the later one clears what the earlier one has just written. */
  ghost predicate Exchanged(cfg: Config, x: string, y: string, stx: ItemState, sty: ItemState, d: Path, o: Path,
                            files: Files, tr: Trace) {
    && RowsRan(cfg, Exchanging(x, y, stx, sty, d, o), files, tr) && tr.Whole() && tr.End().failed == 0
    && tr.End().files == map[o := StreamURL(cfg, Item(sty, None))]
    && Applied(Exchanging(x, y, stx, sty, d, o), tr.End().updates) == Exchanging(x, y, stx, sty, o, d)
  }

  /**
    Two rows exchange paths and nothing fails: the earlier one, recorded where it wrote its
    file, has none there, and the only file left is the later one's.
   */
  lemma ExchangeLoses(cfg: Config, x: string, y: string, stx: ItemState, sty: ItemState, d: Path, o: Path, files: Files)
    requires Less(x, y) && Wanted(Item(stx, None)) && Wanted(Item(sty, None)) && d != o && files.Keys == {d, o}
    requires DesiredPath(cfg, x, Item(stx, None)) == d && DesiredPath(cfg, y, Item(sty, None)) == o
    ensures exists tr :: Exchanged(cfg, x, y, stx, sty, d, o, files, tr)
    ensures var st := Stake(cfg, Exchanging(x, y, stx, sty, d, o), files, x);
            st.Ok() && !st.Has(Some(d), map[o := StreamURL(cfg, Item(sty, None))]) && MayLose(st)
  {
    LessTotal(x, y);
    ExchangeRuns(cfg, x, y, stx, sty, d, o, files);
    ExchangeMayLose(cfg, x, y, stx, sty, d, o, files);
  }

  lemma ExchangeMayLose(cfg: Config, x: string, y: string, stx: ItemState, sty: ItemState, d: Path, o: Path,
                        files: Files)
    requires Less(x, y) && x != y && Wanted(Item(stx, None)) && Wanted(Item(sty, None)) && d != o
    requires DesiredPath(cfg, x, Item(stx, None)) == d && DesiredPath(cfg, y, Item(sty, None)) == o
    ensures var st := Stake(cfg, Exchanging(x, y, stx, sty, d, o), files, x);
            st.Ok() && !st.Has(Some(d), map[o := StreamURL(cfg, Item(sty, None))]) && MayLose(st)
  {
    var items := Exchanging(x, y, stx, sty, d, o);
    assert items[x] == Item(stx, Some(o)) && items[y] == Item(sty, Some(d));
    ExchangeActs(cfg, x, y, stx, sty, d, o);
    ExchangeOvertakes(Stake(cfg, items, files, x), y, d);
  }

  lemma ExchangeRuns(cfg: Config, x: string, y: string, stx: ItemState, sty: ItemState, d: Path, o: Path, files: Files)
    requires Less(x, y) && x != y && Wanted(Item(stx, None)) && Wanted(Item(sty, None))
    requires d != o && files.Keys == {d, o}
    requires DesiredPath(cfg, x, Item(stx, None)) == d && DesiredPath(cfg, y, Item(sty, None)) == o
    ensures exists tr :: Exchanged(cfg, x, y, stx, sty, d, o, files, tr)
  {
    var items, q := Exchanging(x, y, stx, sty, d, o), [x, y];
    assert items.Keys == {x, y} && Sorts(q, items.Keys);
    var tr := LuckyTrace(cfg, items, files, q, {0, 1});
    LuckyRan(cfg, items, files, q, {0, 1});
    LuckyEnds(cfg, items, files, q, {0, 1});
    ExchangeRows(cfg, x, y, stx, sty, d, o);
    ExchangeJobs(files, JobsOf(cfg, items, q), x, y, d, o);
    ExchangeEnds(cfg, x, y, stx, sty, d, o, files, tr);
  }

  lemma ExchangeEnds(cfg: Config, x: string, y: string, stx: ItemState, sty: ItemState, d: Path, o: Path, files: Files,
                     tr: Trace)
    requires x != y && RowsRan(cfg, Exchanging(x, y, stx, sty, d, o), files, tr) && tr.Whole()
    requires tr.End().failed == 0 && tr.End().files == map[o := StreamURL(cfg, Item(sty, None))]
    requires tr.End().updates == [PathUpdate(x, Some(d)), PathUpdate(y, Some(o))]
    ensures Exchanged(cfg, x, y, stx, sty, d, o, files, tr)
  {
    ExchangeSaved(x, y, stx, sty, d, o, tr.End().updates);
  }

  lemma ExchangeRows(cfg: Config, x: string, y: string, stx: ItemState, sty: ItemState, d: Path, o: Path)
    requires x != y && Wanted(Item(stx, None)) && Wanted(Item(sty, None))
    requires DesiredPath(cfg, x, Item(stx, None)) == d && DesiredPath(cfg, y, Item(sty, None)) == o
    ensures var jobs := JobsOf(cfg, Exchanging(x, y, stx, sty, d, o), [x, y]);
            && |jobs| == 2 && jobs[0] == Job(x, Some(d), StreamURL(cfg, Item(stx, None)), Some(o))
            && jobs[1] == Job(y, Some(o), StreamURL(cfg, Item(sty, None)), Some(d))
  {
    var items := Exchanging(x, y, stx, sty, d, o);
    assert items[x] == Item(stx, Some(o)) && items[y] == Item(sty, Some(d));
  }

  lemma ExchangeJobs(files: Files, jobs: seq<Job>, x: string, y: string, d: Path, o: Path)
    requires |jobs| == 2 && jobs[0] == Job(x, Some(d), jobs[0].url, Some(o))
    requires jobs[1] == Job(y, Some(o), jobs[1].url, Some(d))
    requires d != o && files.Keys == {d, o}
    ensures var s := Pattern(files, jobs, {0, 1}, 2);
            && s.failed == 0 && s.files == map[o := jobs[1].url]
            && s.updates == [PathUpdate(x, Some(d)), PathUpdate(y, Some(o))]
  {
    var s0, s1 := Pattern(files, jobs, {0, 1}, 0), Pattern(files, jobs, {0, 1}, 1);
    assert s1 == Outcome(jobs[0], s0, true);
    assert Pattern(files, jobs, {0, 1}, 2) == Outcome(jobs[1], s1, true);
  }

  lemma ExchangeSaved(x: string, y: string, stx: ItemState, sty: ItemState, d: Path, o: Path, updates: seq<PathUpdate>)
    requires x != y && updates == [PathUpdate(x, Some(d)), PathUpdate(y, Some(o))]
    ensures Applied(Exchanging(x, y, stx, sty, d, o), updates) == Exchanging(x, y, stx, sty, o, d)
  {
    assert updates[..|updates| - 1] == [PathUpdate(x, Some(d))];
    assert PathAfter([PathUpdate(x, Some(d))], x, Some(o)) == Some(d);
    assert PathAfter(updates, x, Some(o)) == Some(d);
    assert PathAfter(updates, y, Some(d)) == Some(o);
    assert Exchanging(x, y, stx, sty, d, o).Keys == Exchanging(x, y, stx, sty, o, d).Keys;
  }

  lemma ExchangeActs(cfg: Config, x: string, y: string, stx: ItemState, sty: ItemState, d: Path, o: Path)
    requires x != y && d != o
    requires DesiredPath(cfg, x, Item(stx, None)) == d && DesiredPath(cfg, y, Item(sty, None)) == o
    ensures var items := Exchanging(x, y, stx, sty, d, o); Acts(cfg, items, x) && Acts(cfg, items, y)
  {
    var items := Exchanging(x, y, stx, sty, d, o);
    assert items[x] == Item(stx, Some(o)) && items[y] == Item(sty, Some(d));
    assert items.Keys == {x, y};
    ActsAlone(cfg, items, x, y, d, o);
    assert items.Keys == {y, x};
    ActsAlone(cfg, items, y, x, o, d);
  }

  lemma ExchangeOvertakes(st: Stake, y: string, d: Path)
    requires st.Ok() && st.Own() == d && Less(st.x, y) && Acts(st.cfg, st.items, st.x) && Acts(st.cfg, st.items, y)
    requires st.items[y].strmPath == Some(d) && Goal(st.cfg, y, st.items[y]) != Some(d)
    ensures MayLose(st)
  {
    LessTotal(st.x, y);
    assert st.Clears(y, d) && st.Follows({}, st.x, y);
    OvertakenLoses(st);
  }
}
