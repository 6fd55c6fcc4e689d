/**
  Histories of cycles that lead to the inputs at which an item loses its file: two ids with
  one suffix come to record or want one path.
 */
module Histories {
  import opened Wrappers
  import opened Order
  import opened Election
  import opened Paths
  import opened Places
  import opened Items
  import opened Strm
  import opened Failures
  import opened Loss
  import opened Losing
  import opened Recovery
  import opened Cycles

  // -------------------------------------- how two rows come to share a file

  /** b is written and hidden, a takes its place, and then a is renamed to st2. */
  function Renamed(shared: map<string, Item>, a: string, b: string, st: ItemState, st2: ItemState): map<string, Item> {
    Elected(shared, map[a := st2, b := st.(hidden := true)])
  }

  /** Row a records p, where its file belongs; row b, hidden, still records it too. */
  function Sharing(a: string, b: string, st: ItemState, p: Path): map<string, Item> {
    map[a := Item(st, Some(p)), b := Item(st.(hidden := true), Some(p))]
  }

  /** As a comes in, before its row is reconciled. */
  function Arriving(a: string, b: string, st: ItemState, p: Path): map<string, Item> {
    map[a := Item(st, None), b := Item(st.(hidden := true), Some(p))]
  }

  /** A reconcile that writes a's file, fails to remove b's, and stops once it has saved its updates. */
  lemma RemovalFails(cfg: Config, a: string, b: string, st: ItemState, p: Path, files: Files)
    requires a != b && Wanted(Item(st, None)) && DesiredPath(cfg, a, Item(st, None)) == p
    ensures Interrupted(cfg, Arriving(a, b, st, p), files, Sharing(a, b, st, p),
                        files[p := StreamURL(cfg, Item(st, None))])
  {
    var items := Arriving(a, b, st, p);
    SortExists(items.Keys);
    var q :| Sorts(q, items.Keys);
    TwoInOrder(q, a, b);
    var lucky: set<nat> := if q[0] == a then {0} else {1};
    ArrivingJobs(cfg, a, b, st, p, q);
    OnlyOneWritten(files, JobsOf(cfg, items, q), a, b, p, StreamURL(cfg, Item(st, None)), lucky);
    var tr := LuckyTrace(cfg, items, files, q, lucky);
    LuckyRan(cfg, items, files, q, lucky);
    LuckyEnds(cfg, items, files, q, lucky);
    SavedSharing(a, b, st, p, tr.End().updates);
    SavedIsInterrupted(cfg, items, files, tr, Sharing(a, b, st, p));
  }

  lemma SavedIsInterrupted(cfg: Config, items: map<string, Item>, files: Files, tr: Trace, items1: map<string, Item>)
    requires RowsRan(cfg, items, files, tr) && tr.Whole() && !tr.swept && items1 == Applied(items, tr.End().updates)
    ensures Interrupted(cfg, items, files, items1, tr.End().files)
  {
    assert StopsAt(cfg, items, tr, items1, tr.End().files);
  }

  lemma TwoInOrder(q: seq<string>, a: string, b: string)
    requires a != b && Sorts(q, {a, b})
    ensures q == [a, b] || q == [b, a]
  {
    SortsSize(q, {a, b});
    LessTotal(q[0], q[1]);
  }

  /** The jobs of a row to be written at p, and of a hidden one recorded there. */
  predicate WriteAndClear(write: Job, clear: Job, a: string, b: string, p: Path, url: string) {
    write == Job(a, Some(p), url, None) && clear.id == b && clear.goal.None? && clear.recorded == Some(p)
  }

  lemma ArrivingJobs(cfg: Config, a: string, b: string, st: ItemState, p: Path, q: seq<string>)
    requires a != b && Wanted(Item(st, None)) && DesiredPath(cfg, a, Item(st, None)) == p
    requires q == [a, b] || q == [b, a]
    ensures var jobs := JobsOf(cfg, Arriving(a, b, st, p), q);
            var i := if q[0] == a then 0 else 1;
            |jobs| == 2 && WriteAndClear(jobs[i], jobs[1 - i], a, b, p, StreamURL(cfg, Item(st, None)))
  {
    var items := Arriving(a, b, st, p);
    assert items[a] == Item(st, None) && items[b] == Item(st.(hidden := true), Some(p));
  }

  lemma OnlyOneWritten(files: Files, jobs: seq<Job>, a: string, b: string, p: Path, url: string, lucky: set<nat>)
    requires |jobs| == 2
    requires (lucky == {0} && WriteAndClear(jobs[0], jobs[1], a, b, p, url)) ||
             (lucky == {1} && WriteAndClear(jobs[1], jobs[0], a, b, p, url))
    ensures var s := Pattern(files, jobs, lucky, 2);
            s.files == files[p := url] && s.updates == [PathUpdate(a, Some(p))]
  {
    var s0, s1 := Pattern(files, jobs, lucky, 0), Pattern(files, jobs, lucky, 1);
    assert s1 == Outcome(jobs[0], s0, 0 in lucky);
    assert Pattern(files, jobs, lucky, 2) == Outcome(jobs[1], s1, 1 in lucky);
    assert files[p := url] - {} == files[p := url];
  }

  lemma SavedSharing(a: string, b: string, st: ItemState, p: Path, updates: seq<PathUpdate>)
    requires a != b && updates == [PathUpdate(a, Some(p))]
    ensures Applied(Arriving(a, b, st, p), updates) == Sharing(a, b, st, p)
  {
    var items := Arriving(a, b, st, p);
    assert items.Keys == {a, b} && Sharing(a, b, st, p).Keys == {a, b};
    assert PathAfter(updates[..0], b, Some(p)) == Some(p);
    assert PathAfter(updates, a, None) == Some(p) && PathAfter(updates, b, Some(p)) == Some(p);
  }

  /**
    The table of Losing.SharedRecordLoses arises: let ids a and b share a suffix. b is
    written in a clean cycle; b is hidden as a appears, and the reconcile writes a's file at b's
    path but fails to remove b's, so both record it; then a is renamed. If now writing a's new
    file fails, clearing b takes its last.
   */
  lemma SharedRecordArises(cfg: Config, a: string, b: string, st: ItemState, st2: ItemState)
    requires a != b && Disambiguator(a, cfg.digest) == Disambiguator(b, cfg.digest)
    requires Wanted(Item(st, None)) && Wanted(Item(st2, None))
    requires cfg.place(st2, a) != cfg.place(st, a)
    ensures Shares(cfg, a, b, st)
    ensures Loses(cfg, a, b, st, st2)
  {
    SharedArrives(cfg, a, b, st);
    RenamedLoses(cfg, a, b, st, st2, cfg.place(st, a));
  }

  /** The disk with the file of st at the path of id a. */
  function OneFile(cfg: Config, a: string, st: ItemState): Files {
    map[cfg.place(st, a) := StreamURL(cfg, Item(st, None))]
  }

  /** A clean cycle writes b's file on an empty disk; then a reconcile as a arrives leaves a and b sharing it. */
  ghost predicate Shares(cfg: Config, a: string, b: string, st: ItemState) {
    var written := Cycled(cfg, map[b := st], map[]);
    && CleanDisk(cfg, Elected(map[], map[b := st]), map[], OneFile(cfg, a, st))
    && Interrupted(cfg, Elected(written, map[a := st, b := st.(hidden := true)]), OneFile(cfg, a, st),
                   Sharing(a, b, st, cfg.place(st, a)), OneFile(cfg, a, st))
  }

  /** From there, once a is renamed, it has a file and may lose it. */
  ghost predicate Loses(cfg: Config, a: string, b: string, st: ItemState, st2: ItemState) {
    var renamed := Renamed(Sharing(a, b, st, cfg.place(st, a)), a, b, st, st2);
    && a in renamed && Wanted(renamed[a]) && HasFile(cfg, a, renamed[a], OneFile(cfg, a, st))
    && MayLose(Stake(cfg, renamed, OneFile(cfg, a, st), a))
  }

  lemma SharedArrives(cfg: Config, a: string, b: string, st: ItemState)
    requires a != b && Disambiguator(a, cfg.digest) == Disambiguator(b, cfg.digest) && Wanted(Item(st, None))
    ensures Shares(cfg, a, b, st)
  {
    var p := cfg.place(st, a);
    SameSuffixSamePath(cfg.out, st, a, b, cfg.digest);
    FirstDisk(cfg, b, st, p);
    FirstWritten(cfg, b, st);
    FirstKeys(cfg, b, st);
    ArrivesHidden(Cycled(cfg, map[b := st], map[]), a, b, st, p);
    RemovalFails(cfg, a, b, st, p, OneFile(cfg, a, st));
    WrittenAgain(OneFile(cfg, a, st), p);
  }

  lemma WrittenAgain(files: Files, p: Path)
    requires p in files
    ensures files[p := files[p]] == files
  {
  }

  lemma FirstDisk(cfg: Config, b: string, st: ItemState, p: Path)
    requires Wanted(Item(st, None)) && DesiredPath(cfg, b, Item(st, None)) == p
    ensures CleanDisk(cfg, Elected(map[], map[b := st]), map[], map[p := StreamURL(cfg, Item(st, None))])
  {
    FirstTable(b, st);
    OneRowClean(cfg, b, Item(st, None), p);
  }

  lemma FirstTable(b: string, st: ItemState)
    requires st.peerID != ""
    ensures Elected(map[], map[b := st]) == map[b := Item(st, None)]
  {
    DesiredSurvive(map[], map[b := st], b);
  }

  lemma FirstKeys(cfg: Config, b: string, st: ItemState)
    requires st.peerID != ""
    ensures Cycled(cfg, map[b := st], map[]).Keys == {b}
  {
    DesiredSurvive(map[], map[b := st], b);
  }

  lemma ArrivesHidden(written: map<string, Item>, a: string, b: string, st: ItemState, p: Path)
    requires a != b && st.peerID != "" && written.Keys == {b} && PathOf(written, b) == Some(p)
    ensures Elected(written, map[a := st, b := st.(hidden := true)]) == Arriving(a, b, st, p)
  {
    var table := Elected(written, map[a := st, b := st.(hidden := true)]);
    HiddenLater(written, a, b, st);
    DesiredSurvive(written, map[a := st, b := st.(hidden := true)], a);
    assert table.Keys == {a, b};
  }

  lemma RenamedLoses(cfg: Config, a: string, b: string, st: ItemState, st2: ItemState, p: Path)
    requires a != b && Wanted(Item(st, None)) && Wanted(Item(st2, None))
    requires p == cfg.place(st, a) != cfg.place(st2, a)
    ensures Loses(cfg, a, b, st, st2)
  {
    var renamed := Renamed(Sharing(a, b, st, p), a, b, st, st2);
    RenamedRows(a, b, st, st2, p);
    OwnNeverTemp(cfg, a, st, p);
    LastFileRemoved(Stake(cfg, renamed, OneFile(cfg, a, st), a), b, p);
  }

  lemma OwnNeverTemp(cfg: Config, a: string, st: ItemState, p: Path)
    requires p == cfg.place(st, a)
    ensures !Temp(p)
  {
    PathEndsInStrm(cfg.out, st, a, cfg.digest);
    StrmIsNoTemp(p);
  }

  lemma RenamedRows(a: string, b: string, st: ItemState, st2: ItemState, p: Path)
    requires a != b && st.peerID != "" && st2.peerID != ""
    ensures var renamed := Renamed(Sharing(a, b, st, p), a, b, st, st2);
            && a in renamed && renamed[a] == Item(st2, Some(p))
            && b in renamed && renamed[b] == Item(st.(hidden := true), Some(p))
  {
    var now := map[a := st2, b := st.(hidden := true)];
    assert now[a] == st2 && now[b] == st.(hidden := true);
    DesiredSurvive(Sharing(a, b, st, p), now, a);
    DesiredSurvive(Sharing(a, b, st, p), now, b);
  }

  // ---------------------------------------- how two rows come to swap paths

  /** Two items of one peer, neither a grouped episode, under ids with one suffix. */
  predicate Alike(cfg: Config, a: string, b: string, sta: ItemState, stb: ItemState) {
    && a != b && Disambiguator(a, cfg.digest) == Disambiguator(b, cfg.digest)
    && Wanted(Item(sta, None)) && Wanted(Item(stb, None)) && !IsGroupedEpisode(sta) && !IsGroupedEpisode(stb)
    && stb.mediaType == sta.mediaType && stb.peerID == sta.peerID
  }

  /** The files of both on an otherwise empty disk. */
  function TwoFiles(cfg: Config, a: string, b: string, sta: ItemState, stb: ItemState): Files {
    map[cfg.place(sta, a) := StreamURL(cfg, Item(sta, None)),
        cfg.place(stb, b) := StreamURL(cfg, Item(stb, None))]
  }

  /**
    The table of Losing.ExchangeLoses arises: both items are written in a clean cycle, and then
    their names are swapped. In the next reconcile, in which nothing fails, the first one loses its file.
   */
  lemma SwapArises(cfg: Config, a: string, b: string, sta: ItemState, stb: ItemState)
    requires Alike(cfg, a, b, sta, stb) && Less(a, b)
    requires cfg.place(sta, a) != cfg.place(stb, b)
    ensures var pa, pb := cfg.place(sta, a), cfg.place(stb, b);
            var sta', stb' := sta.(name := stb.name), stb.(name := sta.name);
            var written := Cycled(cfg, map[a := sta, b := stb], map[]);
            && CleanDisk(cfg, Elected(map[], map[a := sta, b := stb]), map[], TwoFiles(cfg, a, b, sta, stb))
            && Elected(written, map[a := sta', b := stb']) == Exchanging(a, b, sta', stb', pb, pa)
            && (exists tr :: Exchanged(cfg, a, b, sta', stb', pb, pa, TwoFiles(cfg, a, b, sta, stb), tr))
            && Stake(cfg, Exchanging(a, b, sta', stb', pb, pa), TwoFiles(cfg, a, b, sta, stb), a).Ok()
            && MayLose(Stake(cfg, Exchanging(a, b, sta', stb', pb, pa), TwoFiles(cfg, a, b, sta, stb), a))
  {
    var pa, pb := cfg.place(sta, a), cfg.place(stb, b);
    var sta', stb' := sta.(name := stb.name), stb.(name := sta.name);
    TwoClean(cfg, a, b, sta, stb);
    SwappedTable(cfg, a, b, sta, stb);
    SwappedPaths(cfg, a, b, sta, stb);
    ExchangeLoses(cfg, a, b, sta', stb', pb, pa, TwoFiles(cfg, a, b, sta, stb));
  }

  lemma SwappedTable(cfg: Config, a: string, b: string, sta: ItemState, stb: ItemState)
    requires Alike(cfg, a, b, sta, stb)
    ensures var sta', stb' := sta.(name := stb.name), stb.(name := sta.name);
            Elected(Cycled(cfg, map[a := sta, b := stb], map[]), map[a := sta', b := stb']) ==
            Exchanging(a, b, sta', stb', cfg.place(stb, b), cfg.place(sta, a))
  {
    TwoWritten(cfg, a, b, sta, stb);
    TwoElected(Cycled(cfg, map[a := sta, b := stb], map[]), a, b, sta.(name := stb.name), stb.(name := sta.name));
  }

  lemma SwappedPaths(cfg: Config, a: string, b: string, sta: ItemState, stb: ItemState)
    requires Alike(cfg, a, b, sta, stb)
    ensures cfg.place(sta.(name := stb.name), a) == cfg.place(stb, b)
    ensures cfg.place(stb.(name := sta.name), b) == cfg.place(sta, a)
  {
    SameNameSamePath(cfg.out, sta.(name := stb.name), a, stb, b, cfg.digest);
    SameNameSamePath(cfg.out, stb.(name := sta.name), b, sta, a, cfg.digest);
  }

  lemma TwoElected(items: map<string, Item>, a: string, b: string, sta: ItemState, stb: ItemState)
    requires a != b && sta.peerID != "" && stb.peerID != "" && items.Keys <= {a, b}
    ensures Elected(items, map[a := sta, b := stb]) ==
            map[a := Item(sta, PathOf(items, a)), b := Item(stb, PathOf(items, b))]
  {
    var desired := map[a := sta, b := stb];
    assert desired[a] == sta && desired[b] == stb;
    DesiredSurvive(items, desired, a);
    DesiredSurvive(items, desired, b);
  }

  lemma TwoWritten(cfg: Config, a: string, b: string, sta: ItemState, stb: ItemState)
    requires a != b && Wanted(Item(sta, None)) && Wanted(Item(stb, None))
    ensures var written := Cycled(cfg, map[a := sta, b := stb], map[]);
            && written.Keys == {a, b}
            && PathOf(written, a) == Some(cfg.place(sta, a))
            && PathOf(written, b) == Some(cfg.place(stb, b))
  {
    TwoElected(map[], a, b, sta, stb);
  }

  /** On an empty disk a clean run of two rows without records leaves exactly their files. */
  lemma TwoClean(cfg: Config, a: string, b: string, sta: ItemState, stb: ItemState)
    requires a != b && Wanted(Item(sta, None)) && Wanted(Item(stb, None))
    requires cfg.place(sta, a) != cfg.place(stb, b)
    ensures CleanDisk(cfg, Elected(map[], map[a := sta, b := stb]), map[], TwoFiles(cfg, a, b, sta, stb))
  {
    TwoElected(map[], a, b, sta, stb);
    TwoRowsClean(cfg, a, b, Item(sta, None), Item(stb, None), cfg.place(sta, a),
                 cfg.place(stb, b));
  }

  lemma TwoRowsClean(cfg: Config, a: string, b: string, ita: Item, itb: Item, pa: Path, pb: Path)
    requires a != b && Wanted(ita) && Wanted(itb) && ita.strmPath.None? && itb.strmPath.None? && pa != pb
    requires DesiredPath(cfg, a, ita) == pa && DesiredPath(cfg, b, itb) == pb
    ensures CleanDisk(cfg, map[a := ita, b := itb], map[], map[pa := StreamURL(cfg, ita), pb := StreamURL(cfg, itb)])
  {
    var items, direct := map[a := ita, b := itb], map[pa := StreamURL(cfg, ita), pb := StreamURL(cfg, itb)];
    TwoOwners(cfg, a, b, ita, itb, pa, pb);
    forall x ensures CleanAt(cfg, items, map[], direct, x) {
      TwoRowsAt(cfg, items, a, b, ita, itb, pa, pb, x);
    }
  }

  lemma TwoOwners(cfg: Config, a: string, b: string, ita: Item, itb: Item, pa: Path, pb: Path)
    requires a != b && Wanted(ita) && Wanted(itb)
    requires DesiredPath(cfg, a, ita) == pa && DesiredPath(cfg, b, itb) == pb
    ensures forall id, x ::
              Owns(cfg, map[a := ita, b := itb], id, x) <==> (id == a && x == pa) || (id == b && x == pb)
  {
    var items := map[a := ita, b := itb];
    assert items[a] == ita && items[b] == itb;
  }

  lemma TwoRowsAt(cfg: Config, items: map<string, Item>, a: string, b: string, ita: Item, itb: Item, pa: Path, pb: Path,
                  x: Path)
    requires a != b && pa != pb && ita.strmPath.None? && itb.strmPath.None? && items == map[a := ita, b := itb]
    requires forall id, q :: Owns(cfg, items, id, q) <==> (id == a && q == pa) || (id == b && q == pb)
    ensures CleanAt(cfg, items, map[], map[pa := StreamURL(cfg, ita), pb := StreamURL(cfg, itb)], x)
  {
    var direct := map[pa := StreamURL(cfg, ita), pb := StreamURL(cfg, itb)];
    assert items[a] == ita && items[b] == itb;
    if x == pa {
      OneOwnerAt(cfg, items, direct, a, x);
    } else if x == pb {
      OneOwnerAt(cfg, items, direct, b, x);
    } else {
      assert !Owned(cfg, items, x);
    }
  }

  lemma OneOwnerAt(cfg: Config, items: map<string, Item>, direct: Files, a: string, x: Path)
    requires Owns(cfg, items, a, x) && forall id | Owns(cfg, items, id, x) :: id == a
    requires Get(direct, x) == Some(StreamURL(cfg, items[a]))
    ensures CleanAt(cfg, items, map[], direct, x)
  {
  }

  /**
    The input of Losing.TakenPathLoses arises: a is written in a clean cycle; then a is renamed
    as b comes in under a's old name. If writing a's new file fails, b's is written over its old one.
   */
  lemma TakenArises(cfg: Config, a: string, b: string, sta: ItemState, stb: ItemState, sta2: ItemState)
    requires Alike(cfg, a, b, sta, stb) && stb.name == sta.name && Wanted(Item(sta2, None))
    requires cfg.place(sta2, a) != cfg.place(sta, a)
    requires StreamURL(cfg, Item(stb, None)) != StreamURL(cfg, Item(sta, None))
    requires StreamURL(cfg, Item(stb, None)) != StreamURL(cfg, Item(sta2, None))
    ensures var table := Elected(Cycled(cfg, map[a := sta], map[]), map[a := sta2, b := stb]);
            && CleanDisk(cfg, Elected(map[], map[a := sta]), map[], OneFile(cfg, a, sta))
            && Stake(cfg, table, OneFile(cfg, a, sta), a).Ok()
            && HasFile(cfg, a, table[a], OneFile(cfg, a, sta)) && MayLose(Stake(cfg, table, OneFile(cfg, a, sta), a))
  {
    var p := cfg.place(sta, a);
    SameNameSamePath(cfg.out, stb, b, sta, a, cfg.digest);
    FirstDisk(cfg, a, sta, p);
    FirstWritten(cfg, a, sta);
    FirstKeys(cfg, a, sta);
    TwoElected(Cycled(cfg, map[a := sta], map[]), a, b, sta2, stb);
    OwnNeverTemp(cfg, a, sta, p);
    TakenTable(cfg, a, b, sta2, stb, p, OneFile(cfg, a, sta));
  }

  lemma TakenTable(cfg: Config, a: string, b: string, sta: ItemState, stb: ItemState, p: Path, files: Files)
    requires a != b && Wanted(Item(sta, None)) && Wanted(Item(stb, None)) && files.Keys == {p} && !Temp(p)
    requires cfg.place(sta, a) != p == cfg.place(stb, b)
    requires StreamURL(cfg, Item(stb, None)) != files[p]
    requires StreamURL(cfg, Item(stb, None)) != StreamURL(cfg, Item(sta, None))
    ensures var table := map[a := Item(sta, Some(p)), b := Item(stb, None)];
            && Stake(cfg, table, files, a).Ok()
            && HasFile(cfg, a, table[a], files) && MayLose(Stake(cfg, table, files, a))
  {
    var table := map[a := Item(sta, Some(p)), b := Item(stb, None)];
    TakenRows(cfg, a, b, sta, stb, p);
    TakenPathLoses(Stake(cfg, table, files, a), b, p);
  }

  lemma TakenRows(cfg: Config, a: string, b: string, sta: ItemState, stb: ItemState, p: Path)
    requires a != b && Wanted(Item(sta, None)) && Wanted(Item(stb, None))
    requires cfg.place(sta, a) != p == cfg.place(stb, b)
    ensures var table := map[a := Item(sta, Some(p)), b := Item(stb, None)];
            table[a] == Item(sta, Some(p)) && table[b] == Item(stb, None) && Acts(cfg, table, b)
  {
    var table := map[a := Item(sta, Some(p)), b := Item(stb, None)];
    assert table[a] == Item(sta, Some(p)) && table[b] == Item(stb, None);
    assert table.Keys == {b, a};
    ActsAlone(cfg, table, b, a, p, cfg.place(sta, a));
  }
}
