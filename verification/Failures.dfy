/**
  What a reconcile may do row by row when anything can fail: which rows act at all, and
  runs in which exactly the rows of one's choice succeed (internal/strm/strm.go).
 */
module Failures {
  import opened Wrappers
  import opened Order
  import opened Items
  import opened Paths
  import opened Strm

  // --------------------------------------------------------- which rows act

  /** A row with a smaller id wants the same path, so this one is skipped. */
  ghost predicate Blocked(cfg: Config, items: map<string, Item>, y: string)
    requires y in items
  {
    exists z :: Prior(cfg, items, z, y)
  }

  predicate Prior(cfg: Config, items: map<string, Item>, z: string, y: string)
    requires y in items
  {
    z in items && Less(z, y) && Wanted(items[z]) && Goal(cfg, z, items[z]) == Goal(cfg, y, items[y])
  }

  /** The row is not skipped: it is unwanted, or the first to want its path. */
  ghost predicate Acts(cfg: Config, items: map<string, Item>, y: string) {
    y in items && !(Wanted(items[y]) && Blocked(cfg, items, y))
  }

  /** Of two rows that want one path, one does not act. */
  lemma OneActs(cfg: Config, items: map<string, Item>, x: string, y: string, p: Path)
    requires Acts(cfg, items, x) && Acts(cfg, items, y) && Owns(cfg, items, x, p) && Owns(cfg, items, y, p)
    ensures x == y
  {
    assert Prior(cfg, items, x, y) == Less(x, y) && Prior(cfg, items, y, x) == Less(y, x);
    LessTotal(x, y);
  }

  /** A row of two acts if they do not belong at one path. */
  lemma ActsAlone(cfg: Config, items: map<string, Item>, x: string, y: string, d: Path, o: Path)
    requires items.Keys == {x, y} && DesiredPath(cfg, x, items[x]) == d && DesiredPath(cfg, y, items[y]) == o && d != o
    ensures Acts(cfg, items, x)
  {
    LessTotal(x, x);
    if Blocked(cfg, items, x) && Wanted(items[x]) {
      var z :| Prior(cfg, items, z, x);
      TwoGoals(cfg, items, x, y, d, o, z);
    }
  }

  lemma TwoGoals(cfg: Config, items: map<string, Item>, x: string, y: string, d: Path, o: Path, z: string)
    requires items.Keys == {x, y} && DesiredPath(cfg, x, items[x]) == d && DesiredPath(cfg, y, items[y]) == o && d != o
    requires z in items && z != x && Wanted(items[z]) && Wanted(items[x])
    ensures Goal(cfg, z, items[z]) != Goal(cfg, x, items[x])
  {
    assert z == y;
  }

  /** The paths claimed are those of the wanted rows done. */
  ghost predicate ClaimedIs(cfg: Config, items: map<string, Item>, done: set<string>, s: Run) {
    forall p :: p in s.claimed <==> exists z :: z in done && Owns(cfg, items, z, p)
  }

  lemma ClaimedStep(cfg: Config, items: map<string, Item>, done: set<string>, id: string, s: Run, s': Run)
    requires id in items && RowDone(cfg, JobOf(cfg, id, items[id]), s, s') && ClaimedIs(cfg, items, done, s)
    ensures ClaimedIs(cfg, items, done + {id}, s')
  {
    forall p ensures p in s'.claimed <==> exists z :: z in done + {id} && Owns(cfg, items, z, p) {
      ClaimedAt(cfg, items, done, id, s, s', p);
    }
  }

  lemma ClaimedAt(cfg: Config, items: map<string, Item>, done: set<string>, id: string, s: Run, s': Run, p: Path)
    requires id in items && RowDone(cfg, JobOf(cfg, id, items[id]), s, s')
    requires p in s.claimed <==> exists z :: z in done && Owns(cfg, items, z, p)
    ensures p in s'.claimed <==> exists z :: z in done + {id} && Owns(cfg, items, z, p)
  {
    if z :| z in done && Owns(cfg, items, z, p) {
      assert z in done + {id};
    }
    if Owns(cfg, items, id, p) {
      assert id in done + {id};
    }
  }

  /** A row is skipped exactly if its path is claimed when its turn comes. */
  lemma BlockedIsClaimed(cfg: Config, items: map<string, Item>, q: seq<string>, i: nat, s: Run)
    requires Sorts(q, items.Keys) && i < |q| && q[i] in items && Wanted(items[q[i]]) &&
             ClaimedIs(cfg, items, Upto(q, i), s)
    ensures Blocked(cfg, items, q[i]) <==> DesiredPath(cfg, q[i], items[q[i]]) in s.claimed
  {
    var d := DesiredPath(cfg, q[i], items[q[i]]);
    SortedNext(q, items.Keys, i);
    if z :| Prior(cfg, items, z, q[i]) {
      EarlierIsPassed(q, items.Keys, i, z);
      assert Owns(cfg, items, z, d);
    }
    if z :| z in Upto(q, i) && Owns(cfg, items, z, d) {
      assert Prior(cfg, items, z, q[i]);
    }
  }

  lemma EarlierIsPassed(q: seq<string>, s: set<string>, i: nat, z: string)
    requires Sorts(q, s) && i < |q| && z in s && Less(z, q[i])
    ensures z in Upto(q, i)
  {
    var k :| 0 <= k < |q| && q[k] == z;
    LessTotal(q[i], z);
    assert k < i;
  }

  lemma {:induction false} ClaimedRan(cfg: Config, items: map<string, Item>, files: Files, tr: Trace, i: nat)
    requires RowsRan(cfg, items, files, tr) && i < |tr.runs|
    ensures ClaimedIs(cfg, items, Upto(tr.q, i), tr.runs[i])
  {
    if i > 0 {
      ClaimedRan(cfg, items, files, tr, i - 1);
      ClaimedNext(cfg, items, files, tr, i - 1);
    }
  }

  lemma ClaimedNext(cfg: Config, items: map<string, Item>, files: Files, tr: Trace, i: nat)
    requires RowsRan(cfg, items, files, tr) && i + 1 < |tr.runs| && ClaimedIs(cfg, items, Upto(tr.q, i), tr.runs[i])
    ensures ClaimedIs(cfg, items, Upto(tr.q, i + 1), tr.runs[i + 1])
  {
    assert RowRan(cfg, items, tr.q, tr.runs, i);
    SortedNext(tr.q, items.Keys, i);
    ClaimedStep(cfg, items, Upto(tr.q, i), tr.q[i], tr.runs[i], tr.runs[i + 1]);
  }

  /** At its turn a row acts, or nothing happens to the disk and to what will be saved. */
  lemma ActsOrNot(cfg: Config, items: map<string, Item>, files: Files, tr: Trace, i: nat)
    requires RowsRan(cfg, items, files, tr) && i + 1 < |tr.runs|
    ensures tr.q[i] in items && RowDone(cfg, JobOf(cfg, tr.q[i], items[tr.q[i]]), tr.runs[i], tr.runs[i + 1])
    ensures || Acts(cfg, items, tr.q[i])
            || (tr.runs[i + 1].files == tr.runs[i].files && tr.runs[i + 1].updates == tr.runs[i].updates)
  {
    assert RowRan(cfg, items, tr.q, tr.runs, i);
    ClaimedRan(cfg, items, files, tr, i);
    if Wanted(items[tr.q[i]]) {
      BlockedIsClaimed(cfg, items, tr.q, i, tr.runs[i]);
    }
  }

  /** A row that is cut short does act. */
  lemma CutActs(cfg: Config, items: map<string, Item>, files: Files, tr: Trace, files': Files) returns (id: string)
    requires RowsRan(cfg, items, files, tr) && CutShort(cfg, items, tr, files')
    ensures |tr.runs| <= |tr.q| && id == tr.q[|tr.runs| - 1] && Acts(cfg, items, id)
    ensures Edited(cfg, JobOf(cfg, id, items[id]), tr.End().files, files')
  {
    id := CutRow(cfg, items, tr, files');
    var i := |tr.runs| - 1;
    ClaimedRan(cfg, items, files, tr, i);
    if Wanted(items[id]) {
      BlockedIsClaimed(cfg, items, tr.q, i, tr.End());
    }
  }

  // ------------------------------------------------------- chosen successes

  /** The row if every operation on it succeeds, or as little as possible does. */
  ghost function Outcome(j: Job, s: Run, ok: bool): Run {
    if j.goal.None? then
      if ok || j.recorded.None? then
        Run(s.files - j.Leaving(), s.keep, s.claimed,
            if j.recorded.Some? then s.updates + [PathUpdate(j.id, None)] else s.updates, s.failed)
      else
        s.(keep := s.keep + j.Leaving(), failed := s.failed + 1)
    else if j.goal.value in s.claimed then
      s.(keep := s.keep + j.Leaving(), failed := s.failed + 1)
    else if ok then
      Run(s.files[j.goal.value := j.url] - j.Leaving(), s.keep - j.Leaving() + {j.goal.value},
          s.claimed + {j.goal.value},
          if j.recorded == j.goal then s.updates else s.updates + [PathUpdate(j.id, j.goal)], s.failed)
    else
      Run(s.files, s.keep + j.Leaving() + {j.goal.value}, s.claimed + {j.goal.value}, s.updates, s.failed + 1)
  }

  lemma OutcomeDone(cfg: Config, j: Job, s: Run, ok: bool)
    ensures RowDone(cfg, j, s, Outcome(j, s, ok))
  {
    if j.goal.None? && j.recorded.None? {
      assert s.files - j.Leaving() == s.files;
    }
  }

  /** The state after i jobs if exactly those in lucky succeed. */
  ghost function Pattern(files: Files, jobs: seq<Job>, lucky: set<nat>, i: nat): Run
    requires i <= |jobs|
  {
    if i == 0 then Run(files, {}, {}, [], 0)
    else Outcome(jobs[i - 1], Pattern(files, jobs, lucky, i - 1), i - 1 in lucky)
  }

  lemma {:induction false} ClaimedEarlier(files: Files, jobs: seq<Job>, lucky: set<nat>, i: nat, p: Path)
    requires i <= |jobs| && p in Pattern(files, jobs, lucky, i).claimed
    ensures exists m :: 0 <= m < i && jobs[m].goal == Some(p)
  {
    if p in Pattern(files, jobs, lucky, i - 1).claimed {
      ClaimedEarlier(files, jobs, lucky, i - 1, p);
    }
  }

  /** The job is not skipped: it is the first with its goal. */
  ghost predicate JobActs(jobs: seq<Job>, y: nat) {
    y < |jobs| && (jobs[y].goal.Some? ==> forall m | 0 <= m < y :: jobs[m].goal != jobs[y].goal)
  }

  lemma ActingUnclaimed(files: Files, jobs: seq<Job>, lucky: set<nat>, y: nat)
    requires JobActs(jobs, y)
    ensures jobs[y].goal.Some? ==> jobs[y].goal.value !in Pattern(files, jobs, lucky, y).claimed
  {
    if jobs[y].goal.Some? && jobs[y].goal.value in Pattern(files, jobs, lucky, y).claimed {
      ClaimedEarlier(files, jobs, lucky, y, jobs[y].goal.value);
    }
  }

  function JobsOf(cfg: Config, items: map<string, Item>, q: seq<string>): (jobs: seq<Job>)
    requires forall k | 0 <= k < |q| :: q[k] in items
    ensures |jobs| == |q| && forall k | 0 <= k < |q| :: jobs[k] == JobOf(cfg, q[k], items[q[k]])
  {
    seq(|q|, k requires 0 <= k < |q| => JobOf(cfg, q[k], items[q[k]]))
  }

  /** A reconcile in which exactly the rows at the positions lucky succeed. */
  ghost function LuckyTrace(cfg: Config, items: map<string, Item>, files: Files, q: seq<string>, lucky: set<nat>): Trace
    requires forall k | 0 <= k < |q| :: q[k] in items
  {
    var jobs := JobsOf(cfg, items, q);
    Trace(q, seq(|q| + 1, i requires 0 <= i <= |q| => Pattern(files, jobs, lucky, i)), false)
  }

  lemma LuckyRan(cfg: Config, items: map<string, Item>, files: Files, q: seq<string>, lucky: set<nat>)
    requires Sorts(q, items.Keys)
    ensures RowsRan(cfg, items, files, LuckyTrace(cfg, items, files, q, lucky)) &&
            LuckyTrace(cfg, items, files, q, lucky).Whole()
  {
    var tr := LuckyTrace(cfg, items, files, q, lucky);
    forall i: nat | i < |tr.runs| - 1 ensures RowRan(cfg, items, tr.q, tr.runs, i) {
      LuckyRow(cfg, items, files, q, lucky, tr.runs, i);
    }
  }

  lemma LuckyEnds(cfg: Config, items: map<string, Item>, files: Files, q: seq<string>, lucky: set<nat>)
    requires forall k | 0 <= k < |q| :: q[k] in items
    ensures var tr := LuckyTrace(cfg, items, files, q, lucky);
            tr.Whole() && !tr.swept && tr.End() == Pattern(files, JobsOf(cfg, items, q), lucky, |q|)
  {
  }

  lemma LuckyRow(cfg: Config, items: map<string, Item>, files: Files, q: seq<string>, lucky: set<nat>, runs: seq<Run>,
                 i: nat)
    requires (forall k | 0 <= k < |q| :: q[k] in items) && i < |q| && |runs| == |q| + 1
    requires forall k | 0 <= k <= |q| :: runs[k] == Pattern(files, JobsOf(cfg, items, q), lucky, k)
    ensures RowRan(cfg, items, q, runs, i)
  {
    var jobs := JobsOf(cfg, items, q);
    OutcomeDone(cfg, jobs[i], runs[i], i in lucky);
    assert runs[i + 1] == Pattern(files, jobs, lucky, i + 1) == Outcome(jobs[i], runs[i], i in lucky);
  }

  /** A row that acts does so as a job, at its position. */
  lemma ActsAt(cfg: Config, items: map<string, Item>, q: seq<string>, y: string) returns (i: nat)
    requires Sorts(q, items.Keys) && Acts(cfg, items, y)
    ensures i < |q| && q[i] == y && JobActs(JobsOf(cfg, items, q), i)
    ensures JobsOf(cfg, items, q)[i] == JobOf(cfg, y, items[y])
  {
    i :| 0 <= i < |q| && q[i] == y;
    var jobs := JobsOf(cfg, items, q);
    if jobs[i].goal.Some? {
      forall m | 0 <= m < i ensures jobs[m].goal != jobs[i].goal {
        assert Less(q[m], y) && !Prior(cfg, items, q[m], y);
      }
    }
  }

  lemma OrderOfPositions(q: seq<string>, s: set<string>, i: nat, k: nat)
    requires Sorts(q, s) && i < |q| && k < |q| && Less(q[i], q[k])
    ensures i < k
  {
    LessTotal(q[i], q[k]);
    LessTotal(q[i], q[i]);
  }

  /** A run in which exactly the rows at lucky succeed may stop before its updates are saved, or after. */
  lemma LuckyStops(cfg: Config, items: map<string, Item>, files: Files, q: seq<string>, lucky: set<nat>)
    requires Sorts(q, items.Keys)
    ensures var s := Pattern(files, JobsOf(cfg, items, q), lucky, |q|);
            && Interrupted(cfg, items, files, items, s.files)
            && Interrupted(cfg, items, files, Applied(items, s.updates), s.files)
  {
    var tr := LuckyTrace(cfg, items, files, q, lucky);
    LuckyRan(cfg, items, files, q, lucky);
    LuckyEnds(cfg, items, files, q, lucky);
    StopsUnsaved(cfg, items, files, tr);
    StopsSaved(cfg, items, files, tr);
  }

  lemma StopsUnsaved(cfg: Config, items: map<string, Item>, files: Files, tr: Trace)
    requires RowsRan(cfg, items, files, tr) && !tr.swept
    ensures Interrupted(cfg, items, files, items, tr.End().files)
  {
    assert StopsAt(cfg, items, tr, items, tr.End().files);
  }

  lemma StopsSaved(cfg: Config, items: map<string, Item>, files: Files, tr: Trace)
    requires RowsRan(cfg, items, files, tr) && tr.Whole() && !tr.swept
    ensures Interrupted(cfg, items, files, Applied(items, tr.End().updates), tr.End().files)
  {
    assert StopsAt(cfg, items, tr, Applied(items, tr.End().updates), tr.End().files);
  }
}
