/**
  When reconciles can leave a wanted item without a file of its own (internal/strm/strm.go):
  exactly when other rows can take every file it has. A file is the item's as long as it is
  what it was at the start, or holds the item's own URL.
 */
module Loss {
  import opened Wrappers
  import opened Order
  import opened Paths
  import opened Items
  import opened Strm
  import opened Failures

  // --------------------------------------------------------- what is at stake

  /** The item has a file where it belongs, or a .strm file where it is recorded. */
  predicate HasFile(cfg: Config, id: string, it: Item, files: Files) {
    || DesiredPath(cfg, id, it) in files
    || (it.strmPath.Some? && !Temp(it.strmPath.value) && it.strmPath.value in files)
  }

  /** The wanted item x of a table, and the disk as it is before any reconcile in question. */
  datatype Stake = Stake(cfg: Config, items: map<string, Item>, files: Files, x: string) {

    predicate Ok() {
      x in items && Wanted(items[x])
    }

    /** Where its file belongs. */
    function Own(): Path
      requires Ok()
    {
      DesiredPath(cfg, x, items[x])
    }

    /** The path it is about to leave. */
    function Old(): Option<Path>
      requires Ok()
    {
      var r := items[x].strmPath;
      if r.Some? && r != Some(Own()) && !Temp(r.value) then r else None
    }

    /** A file at p with that content is the item's. */
    predicate Counts(p: Path, content: string)
      requires Ok()
    {
      content == StreamURL(cfg, items[x]) || Get(files, p) == Some(content)
    }

    predicate Mine(f: Files, p: Path)
      requires Ok()
    {
      p in f && Counts(p, f[p])
    }

    /** Row y removes the file at p if all goes well. */
    ghost predicate Clears(y: string, p: Path) {
      Acts(cfg, items, y) && p in JobOf(cfg, y, items[y]).Leaving()
    }

    ghost predicate Writes(y: string, p: Path) {
      Acts(cfg, items, y) && Goal(cfg, y, items[y]) == Some(p)
    }

    /** It takes a file of the item at p: it removes it, or writes one that is not the item's over it. */
    ghost predicate Takes(y: string, p: Path)
      requires Ok()
    {
      Clears(y, p) || (Writes(y, p) && !Counts(p, StreamURL(cfg, items[y])))
    }

    /** It writes a file there that counts as the item's; the item's own row does. */
    ghost predicate Gives(y: string, p: Option<Path>)
      requires Ok()
    {
      p.Some? && Writes(y, p.value) && Counts(p.value, StreamURL(cfg, items[y]))
    }

    ghost predicate TakesOnly(y: string, p: Path, other: Option<Path>)
      requires Ok()
    {
      Takes(y, p) && !Gives(y, other)
    }

    ghost predicate Moves(y: string, p: Path, other: Option<Path>)
      requires Ok()
    {
      Takes(y, p) && Gives(y, other)
    }

    /** Row z may come after row y: in id order, or in a later reconcile if y may have come in an earlier one. */
    predicate Follows(before: set<string>, y: string, z: string) {
      y in before || Less(y, z)
    }

    /**
      A file at p can go without one at other: some row takes it, or some row moves it
      there and a row that may follow takes it there.
     */
    ghost predicate Doomed(before: set<string>, p: Path, other: Option<Path>)
      requires Ok()
    {
      || (exists y :: TakesOnly(y, p, other))
      || (exists y, z :: Moves(y, p, other) && Follows(before, y, z) && TakesOnly(z, other.value, Some(p)))
    }

    /** Every path at which the item has a file is doomed. */
    ghost predicate AllDoomed(before: set<string>)
      requires Ok()
    {
      && (Own() in files ==> Doomed(before, Own(), Old()))
      && (Old().Some? && Old().value in files ==> Doomed(before, Old().value, Some(Own())))
    }

    /** Its new file can go once it is recorded: the item's row acts, and a row that may follow clears it. */
    ghost predicate Overtaken(before: set<string>)
      requires Ok()
    {
      Acts(cfg, items, x) && exists z :: z != x && Follows(before, x, z) && Clears(z, Own())
    }

    ghost predicate CanLose(before: set<string>)
      requires Ok()
    {
      Overtaken(before) || AllDoomed(before)
    }

    /** The item, recorded at path, has a file of its own on the disk f. */
    predicate Has(path: Option<Path>, f: Files)
      requires Ok()
    {
      Mine(f, Own()) || (path.Some? && !Temp(path.value) && Mine(f, path.value))
    }

    // ------------------------------------------- files that cannot be taken

    /** The item's file is at p, or was moved to other by a row in done. */
    ghost predicate Token(done: set<string>, p: Path, other: Option<Path>, f: Files)
      requires Ok()
    {
      Mine(f, p) || (other.Some? && Mine(f, other.value) && exists y :: y in done && Moves(y, p, other))
    }

    /** Once the item is recorded elsewhere than at first, its own file is where it belongs. */
    ghost predicate Settled(path: Option<Path>, f: Files)
      requires Ok()
    {
      || path == items[x].strmPath
      || (Acts(cfg, items, x) && path == Some(Own()) && Get(f, Own()) == Some(StreamURL(cfg, items[x])))
    }

    /** p and other are the item's own path and the one it is about to leave, in either order. */
    predicate IsPair(p: Path, other: Option<Path>)
      requires Ok()
    {
      (p == Own() && other == Old()) || (Old() == Some(p) && other == Some(Own()))
    }
  }

  /** If the item has a file and not all of them are doomed, one is not. */
  lemma SafePath(st: Stake, before: set<string>) returns (p: Path, other: Option<Path>)
    requires st.Ok() && HasFile(st.cfg, st.x, st.items[st.x], st.files) && !st.AllDoomed(before)
    ensures st.IsPair(p, other) && p in st.files && !st.Doomed(before, p, other)
  {
    if st.Own() in st.files && !st.Doomed(before, st.Own(), st.Old()) {
      p, other := st.Own(), st.Old();
    } else {
      p, other := st.Old().value, Some(st.Own());
    }
  }

  /** A row that acts, however far it gets, leaves a file that is not doomed somewhere. */
  lemma TokenEdited(st: Stake, done: set<string>, id: string, p: Path, other: Option<Path>, f: Files, f': Files)
    requires st.Ok() && st.IsPair(p, other) && Acts(st.cfg, st.items, id)
    requires Edited(st.cfg, JobOf(st.cfg, id, st.items[id]), f, f')
    requires !st.TakesOnly(id, p, other)
    requires forall y | y in done && st.Moves(y, p, other) :: !st.TakesOnly(id, other.value, Some(p))
    requires st.Token(done, p, other, f)
    ensures st.Token(done + {id}, p, other, f')
  {
    if st.Mine(f, p) {
      if !st.Mine(f', p) {
        FileMoves(st, id, p, other, f, f');
        assert id in done + {id};
      }
    } else {
      var y :| y in done && st.Moves(y, p, other);
      assert y in done + {id};
      if !st.Mine(f', other.value) {
        FileMoves(st, id, other.value, Some(p), f, f');
      }
    }
  }

  /** A row under which the item's file goes, and which does not simply take it, moved it. */
  lemma FileMoves(st: Stake, id: string, p: Path, other: Option<Path>, f: Files, f': Files)
    requires st.Ok() && Acts(st.cfg, st.items, id) && other != Some(p)
    requires Edited(st.cfg, JobOf(st.cfg, id, st.items[id]), f, f')
    requires !st.TakesOnly(id, p, other) && st.Mine(f, p) && !st.Mine(f', p)
    ensures st.Moves(id, p, other) && st.Mine(f', other.value)
  {
    assert Edit(st.cfg, JobOf(st.cfg, id, st.items[id]), f, f', p);
  }

  /** Nothing that may follow it clears the file the item's row has written. */
  lemma SettledEdited(st: Stake, before: set<string>, id: string, path: Option<Path>, f: Files, f': Files)
    requires st.Ok() && Acts(st.cfg, st.items, id) && !st.Overtaken(before)
    requires Edited(st.cfg, JobOf(st.cfg, id, st.items[id]), f, f')
    requires path != st.items[st.x].strmPath && id != st.x ==> st.Follows(before, st.x, id)
    requires st.Settled(path, f)
    ensures st.Settled(path, f')
  {
    if path != st.items[st.x].strmPath {
      var j, d := JobOf(st.cfg, id, st.items[id]), st.Own();
      assert Edit(st.cfg, j, f, f', d);
      OwnIsNoTemp(st);
      if id != st.x {
        assert !st.Clears(id, d);
        OnlyOwnWrites(st, id);
      }
    }
  }

  lemma OwnIsNoTemp(st: Stake)
    requires st.Ok()
    ensures !Temp(st.Own())
  {
    assert Owns(st.cfg, st.items, st.x, st.Own());
    OwnedIsNoTemp(st.cfg, st.items, st.Own());
  }

  lemma OnlyOwnWrites(st: Stake, id: string)
    requires st.Ok() && Acts(st.cfg, st.items, st.x) && Acts(st.cfg, st.items, id) && id != st.x
    ensures Goal(st.cfg, id, st.items[id]) != Some(st.Own())
  {
    if Goal(st.cfg, id, st.items[id]) == Some(st.Own()) {
      OneActs(st.cfg, st.items, st.x, id, st.Own());
    }
  }

  // ------------------------------------------------- from a later table

  /** A table some reconciles after that of st asks the same of every row, or less. */
  lemma EditedBefore(st: Stake, items1: map<string, Item>, id: string, f: Files, f': Files)
    requires Advances(st.cfg, st.items, items1) && id in items1
    requires Edited(st.cfg, JobOf(st.cfg, id, items1[id]), f, f')
    ensures Edited(st.cfg, JobOf(st.cfg, id, st.items[id]), f, f')
  {
    var j, j1 := JobOf(st.cfg, id, st.items[id]), JobOf(st.cfg, id, items1[id]);
    assert RowAdvances(st.cfg, st.items, items1, id);
    SameGoal(st.cfg, id, st.items[id], items1[id]);
    assert j1.goal == j.goal && j1.url == j.url && j1.Leaving() <= j.Leaving();
    forall p ensures Edit(st.cfg, j, f, f', p) {
      assert Edit(st.cfg, j1, f, f', p);
    }
    if j.recorded.Some? {
      assert Edit(st.cfg, j1, f, f', j.recorded.value);
    }
  }

  lemma PriorSame(cfg: Config, items: map<string, Item>, items1: map<string, Item>, z: string, y: string)
    requires Advances(cfg, items, items1) && y in items
    ensures Prior(cfg, items1, z, y) == Prior(cfg, items, z, y)
  {
    assert RowAdvances(cfg, items, items1, y);
    if z in items {
      assert RowAdvances(cfg, items, items1, z);
    }
  }

  lemma ActsSame(cfg: Config, items: map<string, Item>, items1: map<string, Item>, id: string)
    requires Advances(cfg, items, items1)
    ensures Acts(cfg, items1, id) == Acts(cfg, items, id)
  {
    if id in items {
      forall z ensures Prior(cfg, items1, z, id) == Prior(cfg, items, z, id) {
        PriorSame(cfg, items, items1, z, id);
      }
      assert RowAdvances(cfg, items, items1, id);
    }
  }

  /** What is known of the item during a reconcile of the table items1 that comes after those of the rows before. */
  ghost predicate Watched(st: Stake, before: set<string>, items1: map<string, Item>, p: Path, other: Option<Path>) {
    && st.Ok() && st.IsPair(p, other) && Advances(st.cfg, st.items, items1)
    && !st.Doomed(before, p, other) && !st.Overtaken(before)
    && (items1[st.x].strmPath != st.items[st.x].strmPath ==> st.x in before)
  }

  /** The item recorded at path has a file in either way. */
  ghost predicate Keeps(st: Stake, done: set<string>, p: Path, other: Option<Path>, path: Option<Path>, f: Files)
    requires st.Ok()
  {
    st.Token(done, p, other, f) && st.Settled(path, f)
  }

  lemma KeepsEdited(st: Stake, before: set<string>, items1: map<string, Item>, done: set<string>, id: string, p: Path,
                    other: Option<Path>, path: Option<Path>, f: Files, f': Files)
    requires Watched(st, before, items1, p, other) && Acts(st.cfg, items1, id)
    requires Edited(st.cfg, JobOf(st.cfg, id, items1[id]), f, f')
    requires forall y | y in done :: st.Follows(before, y, id)
    requires path == st.items[st.x].strmPath || id == st.x || st.Follows(before, st.x, id)
    requires Keeps(st, done, p, other, path, f)
    ensures Keeps(st, done + {id}, p, other, path, f')
  {
    ActsSame(st.cfg, st.items, items1, id);
    EditedBefore(st, items1, id, f, f');
    TokenEdited(st, done, id, p, other, f, f');
    SettledEdited(st, before, id, path, f, f');
  }

  // ------------------------------------------------------------- single runs

  /** The path the item is recorded at once the updates so far are saved. */
  function PathSoFar(items1: map<string, Item>, x: string, s: Run): Option<Path>
    requires x in items1
  {
    PathAfter(s.updates, x, items1[x].strmPath)
  }

  /** If the item's own row records a new path, its new file is there. */
  lemma OwnRowSettles(st: Stake, items1: map<string, Item>, s: Run, s': Run)
    requires st.Ok() && Advances(st.cfg, st.items, items1) && Acts(st.cfg, st.items, st.x)
    requires RowDone(st.cfg, JobOf(st.cfg, st.x, items1[st.x]), s, s') && s'.updates != s.updates
    ensures st.Settled(PathSoFar(items1, st.x, s'), s'.files)
  {
    assert RowAdvances(st.cfg, st.items, items1, st.x);
    UpdatesOf(st.cfg, st.x, items1[st.x], s, s', st.x, items1[st.x].strmPath);
  }

  /** The rows passed, and those of earlier reconciles, may all come before the next. */
  lemma PassedFollow(st: Stake, before: set<string>, q: seq<string>, s: set<string>, i: nat, id: string)
    requires Sorts(q, s) && i < |q| && id == q[i]
    ensures forall y | y in before + Upto(q, i) :: st.Follows(before, y, id)
  {
    SortedNext(q, s, i);
  }

  /** A row not yet passed has no update. */
  lemma UnpassedUnchanged(cfg: Config, items1: map<string, Item>, files1: Files, tr: Trace, i: nat, x: string)
    requires RowsRan(cfg, items1, files1, tr) && i < |tr.runs| && x in items1 && x !in Upto(tr.q, i)
    ensures PathSoFar(items1, x, tr.runs[i]) == items1[x].strmPath
  {
    RanReached(cfg, items1, files1, tr, i);
  }

  /** So things stand when i rows of a run of items1 are done. */
  ghost predicate KeepsAt(st: Stake, before: set<string>, items1: map<string, Item>, tr: Trace, i: nat, p: Path,
                          other: Option<Path>)
    requires st.Ok() && st.x in items1 && i < |tr.runs| && i <= |tr.q|
  {
    Keeps(st, before + Upto(tr.q, i), p, other, PathSoFar(items1, st.x, tr.runs[i]), tr.runs[i].files)
  }

  lemma KeepsNext(st: Stake, before: set<string>, items1: map<string, Item>, files1: Files, tr: Trace, i: nat, p: Path,
                  other: Option<Path>)
    requires Watched(st, before, items1, p, other)
    requires RowsRan(st.cfg, items1, files1, tr) && i + 1 < |tr.runs|
    requires KeepsAt(st, before, items1, tr, i, p, other)
    ensures KeepsAt(st, before, items1, tr, i + 1, p, other)
  {
    var id, s, s' := tr.q[i], tr.runs[i], tr.runs[i + 1];
    var path := PathSoFar(items1, st.x, s);
    ActsOrNot(st.cfg, items1, files1, tr, i);
    PassedFollow(st, before, tr.q, items1.Keys, i, id);
    UptoGrows(tr.q, i);
    assert before + Upto(tr.q, i + 1) == before + Upto(tr.q, i) + {id};
    if Acts(st.cfg, items1, id) {
      PassedIfMoved(st, before, items1, files1, tr, i, id, p, other);
      KeepsEdited(st, before, items1, before + Upto(tr.q, i), id, p, other, path, s.files, s'.files);
      PathNext(st, items1, id, s, s');
    } else {
      TokenMore(st, before + Upto(tr.q, i), before + Upto(tr.q, i + 1), p, other, s.files);
    }
  }

  /** If the item is recorded elsewhere than at first, its row may have come before this one. */
  lemma PassedIfMoved(st: Stake, before: set<string>, items1: map<string, Item>, files1: Files, tr: Trace, i: nat,
                      id: string, p: Path, other: Option<Path>)
    requires Watched(st, before, items1, p, other) && RowsRan(st.cfg, items1, files1, tr)
    requires i < |tr.runs| && i < |tr.q| && id == tr.q[i]
    ensures || PathSoFar(items1, st.x, tr.runs[i]) == st.items[st.x].strmPath
            || id == st.x || st.Follows(before, st.x, id)
  {
    PassedFollow(st, before, tr.q, items1.Keys, i, id);
    if st.x in Upto(tr.q, i) {
      assert st.x in before + Upto(tr.q, i);
    } else {
      UnpassedUnchanged(st.cfg, items1, files1, tr, i, st.x);
    }
  }

  lemma TokenMore(st: Stake, done: set<string>, more: set<string>, p: Path, other: Option<Path>, f: Files)
    requires st.Ok() && st.Token(done, p, other, f) && done <= more
    ensures st.Token(more, p, other, f)
  {
    if !st.Mine(f, p) {
      var y :| y in done && st.Moves(y, p, other);
      assert y in more;
    }
  }

  /** What the item is recorded at after one more row is settled too. */
  lemma PathNext(st: Stake, items1: map<string, Item>, id: string, s: Run, s': Run)
    requires st.Ok() && Advances(st.cfg, st.items, items1) && Acts(st.cfg, items1, id)
    requires RowDone(st.cfg, JobOf(st.cfg, id, items1[id]), s, s')
    requires st.Settled(PathSoFar(items1, st.x, s), s'.files)
    ensures st.Settled(PathSoFar(items1, st.x, s'), s'.files)
  {
    if id == st.x && s'.updates != s.updates {
      ActsSame(st.cfg, st.items, items1, id);
      OwnRowSettles(st, items1, s, s');
    } else if id != st.x {
      UpdatesOf(st.cfg, id, items1[id], s, s', st.x, items1[st.x].strmPath);
    }
  }

  lemma {:induction false} KeepsRan(st: Stake, before: set<string>, items1: map<string, Item>, files1: Files, tr: Trace,
                                    i: nat, p: Path, other: Option<Path>)
    requires Watched(st, before, items1, p, other) && RowsRan(st.cfg, items1, files1, tr) && i < |tr.runs|
    requires Keeps(st, before, p, other, items1[st.x].strmPath, files1)
    ensures KeepsAt(st, before, items1, tr, i, p, other)
  {
    if i == 0 {
      assert before + Upto(tr.q, 0) == before;
    } else {
      KeepsRan(st, before, items1, files1, tr, i - 1, p, other);
      KeepsNext(st, before, items1, files1, tr, i - 1, p, other);
    }
  }

  // ---------------------------------------------------- wherever it stops

  /** An item recorded at its own path, where its row put its file, has left its old one. */
  lemma SettledToken(st: Stake, done: set<string>, p: Path, other: Option<Path>, path: Option<Path>, f: Files)
    requires st.Ok() && st.IsPair(p, other) && st.Settled(path, f) && path != st.items[st.x].strmPath && st.x in done
    ensures st.Token(done, p, other, f)
  {
    if p != st.Own() {
      assert st.Clears(st.x, p) && st.Moves(st.x, p, other);
    }
  }

  lemma KeepsHas(st: Stake, done: set<string>, p: Path, other: Option<Path>, path: Option<Path>, f: Files)
    requires st.Ok() && st.IsPair(p, other) && Keeps(st, done, p, other, path, f)
    ensures st.Has(path, f)
  {
  }

  lemma KeepsEnd(st: Stake, before: set<string>, items1: map<string, Item>, files1: Files, tr: Trace, p: Path,
                 other: Option<Path>)
    requires Watched(st, before, items1, p, other) && RowsRan(st.cfg, items1, files1, tr)
    requires Keeps(st, before, p, other, items1[st.x].strmPath, files1)
    ensures Keeps(st, before + items1.Keys, p, other, PathSoFar(items1, st.x, tr.End()), tr.End().files)
  {
    var i := |tr.runs| - 1;
    KeepsRan(st, before, items1, files1, tr, i, p, other);
    KeepsMore(st, before + Upto(tr.q, i), before + items1.Keys, p, other, PathSoFar(items1, st.x, tr.End()),
              tr.End().files);
  }

  lemma KeepsMore(st: Stake, done: set<string>, more: set<string>, p: Path, other: Option<Path>, path: Option<Path>,
                  f: Files)
    requires st.Ok() && Keeps(st, done, p, other, path, f) && done <= more
    ensures Keeps(st, more, p, other, path, f)
  {
    TokenMore(st, done, more, p, other, f);
  }

  lemma KeepsCut(st: Stake, before: set<string>, items1: map<string, Item>, files1: Files, tr: Trace, id: string,
                 files2: Files, p: Path, other: Option<Path>)
    requires Watched(st, before, items1, p, other) && RowsRan(st.cfg, items1, files1, tr)
    requires |tr.runs| <= |tr.q| && id == tr.q[|tr.runs| - 1] && Acts(st.cfg, items1, id)
    requires Edited(st.cfg, JobOf(st.cfg, id, items1[id]), tr.End().files, files2)
    requires Keeps(st, before, p, other, items1[st.x].strmPath, files1)
    ensures Keeps(st, before + items1.Keys, p, other, PathSoFar(items1, st.x, tr.End()), files2)
  {
    var i := |tr.runs| - 1;
    KeepsRan(st, before, items1, files1, tr, i, p, other);
    PassedFollow(st, before, tr.q, items1.Keys, i, id);
    PassedIfMoved(st, before, items1, files1, tr, i, id, p, other);
    var done, path := before + Upto(tr.q, i), PathSoFar(items1, st.x, tr.End());
    KeepsEdited(st, before, items1, done, id, p, other, path, tr.End().files, files2);
    KeepsMore(st, done + {id}, before + items1.Keys, p, other, path, files2);
  }

  lemma AppliedPath(items1: map<string, Item>, x: string, s: Run)
    requires x in items1
    ensures Applied(items1, s.updates)[x].strmPath == PathSoFar(items1, x, s)
  {
  }

  lemma SparedAt(cfg: Config, items: map<string, Item>, staged: Files, files: Files, x: string, p: Path)
    requires TrackedSpared(cfg, items, staged, files) && x in items && !Temp(p)
    requires items[x].strmPath == Some(p) || Owns(cfg, items, x, p)
    ensures Get(files, p) == Get(staged, p)
  {
  }

  /** The sweep spares the item's file: at its own path, and where it is recorded. */
  lemma KeepsSwept(st: Stake, done: set<string>, items1: map<string, Item>, files1: Files, tr: Trace,
                   items2: map<string, Item>, files2: Files, p: Path, other: Option<Path>)
    requires st.Ok() && st.IsPair(p, other) && st.x in done && Advances(st.cfg, st.items, items1)
    requires RowsRan(st.cfg, items1, files1, tr) && SweptFrom(st.cfg, items1, tr, items2, files2)
    requires Keeps(st, done, p, other, PathSoFar(items1, st.x, tr.End()), tr.End().files)
    ensures st.x in items2 && Keeps(st, done, p, other, items2[st.x].strmPath, files2)
  {
    var path, f := PathSoFar(items1, st.x, tr.End()), tr.End().files;
    assert RowAdvances(st.cfg, st.items, items1, st.x);
    SweptEnd(st.cfg, items1, files1, tr, items2, files2);
    AppliedPath(items1, st.x, tr.End());
    OwnIsNoTemp(st);
    SparedAt(st.cfg, items2, f, files2, st.x, st.Own());
    if path != st.items[st.x].strmPath {
      SettledToken(st, done, p, other, path, files2);
    } else {
      if st.Old().Some? {
        SparedAt(st.cfg, items2, f, files2, st.x, st.Old().value);
      }
      TokenSame(st, done, p, other, f, files2);
    }
  }

  lemma TokenSame(st: Stake, done: set<string>, p: Path, other: Option<Path>, f: Files, f': Files)
    requires st.Ok() && st.Token(done, p, other, f)
    requires Get(f', p) == Get(f, p) && (other.Some? ==> Get(f', other.value) == Get(f, other.value))
    ensures st.Token(done, p, other, f')
  {
  }

  /** Wherever a reconcile stops, and whether or not it is saved. */
  lemma KeepsStopped(st: Stake, before: set<string>, items1: map<string, Item>, files1: Files,
                     items2: map<string, Item>, files2: Files, p: Path, other: Option<Path>)
    requires Watched(st, before, items1, p, other) && Interrupted(st.cfg, items1, files1, items2, files2)
    requires Keeps(st, before, p, other, items1[st.x].strmPath, files1)
    ensures st.x in items2 && Keeps(st, before + items1.Keys, p, other, items2[st.x].strmPath, files2)
  {
    var tr :| RowsRan(st.cfg, items1, files1, tr) && StopsAt(st.cfg, items1, tr, items2, files2);
    KeepsEnd(st, before, items1, files1, tr, p, other);
    if tr.swept {
      KeepsSwept(st, before + items1.Keys, items1, files1, tr, items2, files2, p, other);
    } else {
      KeepsEarly(st, before, items1, files1, tr, items2, files2, p, other);
    }
  }

  lemma KeepsEarly(st: Stake, before: set<string>, items1: map<string, Item>, files1: Files, tr: Trace,
                   items2: map<string, Item>, files2: Files, p: Path, other: Option<Path>)
    requires Watched(st, before, items1, p, other) && RowsRan(st.cfg, items1, files1, tr)
    requires StoppedEarly(st.cfg, items1, tr, items2, files2)
    requires Keeps(st, before, p, other, items1[st.x].strmPath, files1)
    ensures st.x in items2 && Keeps(st, before + items1.Keys, p, other, items2[st.x].strmPath, files2)
  {
    if items2 == items1 && files2 == tr.End().files {
      KeepsEnd(st, before, items1, files1, tr, p, other);
      AsBefore(st, before + items1.Keys, items1, files1, tr, files2, p, other);
    } else if items2 == items1 && CutShort(st.cfg, items1, tr, files2) {
      var id := CutActs(st.cfg, items1, files1, tr, files2);
      KeepsCut(st, before, items1, files1, tr, id, files2, p, other);
      AsBefore(st, before + items1.Keys, items1, files1, tr, files2, p, other);
    } else {
      KeepsEnd(st, before, items1, files1, tr, p, other);
      AppliedPath(items1, st.x, tr.End());
    }
  }

  /** A run that is not saved leaves the item recorded as before. */
  lemma AsBefore(st: Stake, done: set<string>, items1: map<string, Item>, files1: Files, tr: Trace, f: Files, p: Path,
                 other: Option<Path>)
    requires st.Ok() && Advances(st.cfg, st.items, items1) && RowsRan(st.cfg, items1, files1, tr)
    requires Keeps(st, done, p, other, PathSoFar(items1, st.x, tr.End()), f)
    requires st.Settled(items1[st.x].strmPath, files1)
    ensures Keeps(st, done, p, other, items1[st.x].strmPath, f)
  {
    assert RowAdvances(st.cfg, st.items, items1, st.x);
    SameGoal(st.cfg, st.x, st.items[st.x], items1[st.x]);
    EitherPath(st.cfg, items1, files1, tr, st.x);
  }

  // ---------------------------------------------------------- safe items

  /** The item has a file and cannot lose its last one. */
  ghost predicate SafeItem(st: Stake, before: set<string>) {
    st.Ok() && HasFile(st.cfg, st.x, st.items[st.x], st.files) && !st.CanLose(before)
  }

  lemma SafeStart(st: Stake, before: set<string>) returns (p: Path, other: Option<Path>)
    requires SafeItem(st, before)
    ensures Watched(st, before, st.items, p, other)
    ensures Keeps(st, before, p, other, st.items[st.x].strmPath, st.files)
  {
    p, other := SafePath(st, before);
  }

  /** Whatever one reconcile does, and wherever it stops, such an item has a file of its own, as it is then recorded. */
  lemma SafeKept(st: Stake, items2: map<string, Item>, files2: Files)
    requires SafeItem(st, {}) && Interrupted(st.cfg, st.items, st.files, items2, files2)
    ensures st.x in items2 && st.Has(items2[st.x].strmPath, files2)
  {
    var p, other := SafeStart(st, {});
    KeepsStopped(st, {}, st.items, st.files, items2, files2, p, other);
    KeepsHas(st, {} + st.items.Keys, p, other, items2[st.x].strmPath, files2);
  }

  ghost predicate KeepsSafeFiles(cfg: Config, items: map<string, Item>, files: Files, items2: map<string, Item>,
                                 files2: Files) {
    forall x | SafeItem(Stake(cfg, items, files, x), {}) ::
      x in items2 && Stake(cfg, items, files, x).Has(items2[x].strmPath, files2)
  }

  lemma AllSafeKept(cfg: Config, items: map<string, Item>, files: Files, items2: map<string, Item>, files2: Files)
    requires Interrupted(cfg, items, files, items2, files2)
    ensures KeepsSafeFiles(cfg, items, files, items2, files2)
  {
    forall x | SafeItem(Stake(cfg, items, files, x), {})
      ensures x in items2 && Stake(cfg, items, files, x).Has(items2[x].strmPath, files2)
    {
      SafeKept(Stake(cfg, items, files, x), items2, files2);
    }
  }
}
