/**
  What a reconcile does to one row's .strm file and what it keeps over all rows
  (Reconcile, internal/strm/strm.go), for every way the file operations can fail.
  The class that executes it is in Reconcile.dfy.
 */
module Strm {
  import opened Wrappers
  import opened Bytes
  import opened Order
  import opened Election
  import opened Paths
  import opened Places
  import opened Items

  datatype Settings = Settings(out: Root, baseURL: string, digest: string -> Hex8, place: (ItemState, string) -> Path)
  {
    /** place is PathFor. Proofs look into it only where they mention that: few need to. */
    ghost predicate Placing() {
      forall st, id {:trigger PathFor(out, st, id, digest)} :: place(st, id) == PathFor(out, st, id, digest)
    }
  }

  const NoDigest: string -> Hex8 := _ => "00000000"
  const NoSettings: Settings := Settings([], "", NoDigest, (st, id) => PathFor([], st, id, NoDigest))

  /** Where redirects go, and what they hold. */
  type Config = c: Settings | c.Placing() witness NoSettings

  lemma PlaceIs(cfg: Config, st: ItemState, id: string)
    ensures cfg.place(st, id) == PathFor(cfg.out, st, id, cfg.digest)
  {
  }

  /** The disk: every file's content by path. */
  type Files = map<Path, string>

  /** The item is playable, visible and elected to a peer. */
  predicate Wanted(it: Item) {
    && !it.st.local && !it.st.hidden && !it.st.hiddenFolder
    && it.st.peerID != "" && it.st.peerItemID != "" && it.st.mediaType != "series"
  }

  function DesiredPath(cfg: Config, id: string, it: Item): Path {
    cfg.place(it.st, id)
  }

  function TrimSlashes(s: string): string {
    if s != "" && s[|s| - 1] == '/' then TrimSlashes(s[..|s| - 1]) else s
  }

  /** Only slashes at the end go, and all of them. */
  lemma {:induction false} TrimSlashesExactly(s: string)
    ensures var t := TrimSlashes(s);
            && t <= s && (t != "" ==> t[|t| - 1] != '/') && forall i | |t| <= i < |s| :: s[i] == '/'
  {
    if s != "" && s[|s| - 1] == '/' {
      TrimSlashesExactly(s[..|s| - 1]);
    }
  }

  function StreamURL(cfg: Config, it: Item): string {
    TrimSlashes(cfg.baseURL) + "/api/v1/proxy/stream/" + it.st.peerID + "/" + it.st.peerItemID
  }

  /**
    The stream proxy can tell peer and item from the end of the URL, whatever the base URL, unless
    they hold slashes.
   */
  lemma StreamURLNamesTheItem(cfg: Config, it: Item)
    ensures var parts := Split(StreamURL(cfg, it), '/');
            && |parts| >= 2
            && (parts[|parts| - 2..] == [it.st.peerID, it.st.peerItemID] <==>
                '/' !in it.st.peerID && '/' !in it.st.peerItemID)
  {
    var route := TrimSlashes(cfg.baseURL) + "/api/v1/proxy/stream";
    URLText(cfg, it);
    LastTwo(route, it.st.peerID, it.st.peerItemID);
  }

  lemma URLText(cfg: Config, it: Item)
    ensures StreamURL(cfg, it) ==
            TrimSlashes(cfg.baseURL) + "/api/v1/proxy/stream" + ['/'] + (it.st.peerID + ['/'] + it.st.peerItemID)
  {
    assert "/api/v1/proxy/stream/" == "/api/v1/proxy/stream" + ['/'];
  }

  lemma LastTwo(route: string, peer: string, item: string)
    ensures var parts := Split(route + ['/'] + (peer + ['/'] + item), '/');
            && |parts| >= 2
            && (parts[|parts| - 2..] == [peer, item] <==> '/' !in peer && '/' !in item)
  {
    SplitAround(route, '/', peer + ['/'] + item);
    SplitAround(peer, '/', item);
    SplitParts(peer, '/');
    SplitParts(item, '/');
    var parts := Split(route + ['/'] + (peer + ['/'] + item), '/');
    SplitParts(route + ['/'] + (peer + ['/'] + item), '/');
    if parts[|parts| - 2..] == [peer, item] {
      assert parts[|parts| - 2] == peer && parts[|parts| - 1] == item;
    }
  }

  /** The path a row should end up recorded with. */
  function Goal(cfg: Config, id: string, it: Item): Option<Path> {
    if Wanted(it) then Some(DesiredPath(cfg, id, it)) else None
  }

  /** The row records p, and p is not where its file belongs. */
  predicate Stale(cfg: Config, id: string, it: Item, p: Path) {
    it.strmPath == Some(p) && Goal(cfg, id, it) != Some(p)
  }

  predicate InMediaFolder(cfg: Config, p: Path) {
    |p| >= |cfg.out| + 2 && cfg.out <= p && (p[|cfg.out|] == "movies" || p[|cfg.out|] == "series")
  }

  const TEMP_PREFIX: string := ".jellysync-"

  /** A file the sweep deletes unless told to keep it. */
  predicate Sweepable(cfg: Config, p: Path) {
    InMediaFolder(cfg, p) && (HasSuffix(p[|p| - 1], ".strm") || TEMP_PREFIX <= p[|p| - 1])
  }

  /** The name of a file still being written, or left behind while it was. */
  predicate Temp(p: Path) {
    p != [] && TEMP_PREFIX <= p[|p| - 1] && HasSuffix(p[|p| - 1], ".tmp")
  }

  predicate Siblings(p: Path, q: Path) {
    p != [] && q != [] && p[..|p| - 1] == q[..|q| - 1]
  }

  /** p is where the wanted row id belongs. */
  predicate Owns(cfg: Config, items: map<string, Item>, id: string, p: Path) {
    id in items && Goal(cfg, id, items[id]) == Some(p)
  }

  ghost predicate Owned(cfg: Config, items: map<string, Item>, p: Path) {
    exists id :: Owns(cfg, items, id, p)
  }

  ghost predicate Recorded(items: map<string, Item>, p: Path) {
    exists id :: id in items && items[id].strmPath == Some(p)
  }

  /** A temp file may be left next to some wanted row's file. */
  ghost predicate Stray(cfg: Config, items: map<string, Item>, p: Path) {
    Temp(p) && exists id, q :: Owns(cfg, items, id, q) && Siblings(p, q)
  }

  /** A row's own file is named *.strm, whatever its id: never like a temp file. */
  lemma OwnedIsNoTemp(cfg: Config, items: map<string, Item>, p: Path)
    requires Owned(cfg, items, p)
    ensures NamedStrm(p) && !Temp(p)
  {
    var id :| Owns(cfg, items, id, p);
    OwnPathEnds(cfg, id, items[id]);
    StrmIsNoTemp(p);
  }

  lemma OwnPathEnds(cfg: Config, id: string, it: Item)
    ensures NamedStrm(DesiredPath(cfg, id, it))
  {
    PlaceIs(cfg, it.st, id);
    PathEndsInStrm(cfg.out, it.st, id, cfg.digest);
  }

  lemma StrmIsNoTemp(p: Path)
    requires NamedStrm(p)
    ensures !Temp(p)
  {
    var f := p[|p| - 1];
    LastOfSuffix(f, ".strm");
    if HasSuffix(f, ".tmp") {
      LastOfSuffix(f, ".tmp");
    }
  }

  /** Every wanted row's file belongs inside movies/ or series/. */
  ghost predicate Confined(cfg: Config, items: map<string, Item>) {
    forall id, p | Owns(cfg, items, id, p) :: InMediaFolder(cfg, p)
  }

  /**
    So it is when no wanted row's names, joined, step above its peer's folder: in particular when no
    id suffix holds a slash.
   */
  lemma StayingBelowConfines(cfg: Config, items: map<string, Item>)
    requires forall id | id in items && Wanted(items[id]) :: StaysBelow(items[id].st, id, cfg.digest)
    ensures Confined(cfg, items)
  {
    forall id, p | Owns(cfg, items, id, p) ensures InMediaFolder(cfg, p) {
      PlaceIs(cfg, items[id].st, id);
      InPeerFolder(cfg.out, items[id].st, id, cfg.digest);
      BelowPeerFolder(cfg, items[id].st, p);
    }
  }

  lemma BelowPeerFolder(cfg: Config, st: ItemState, p: Path)
    requires cfg.out + [MediaRoot(st.mediaType), Sanitize(st.peerID)] < p
    ensures InMediaFolder(cfg, p)
  {
    assert p[|cfg.out|] == (cfg.out + [MediaRoot(st.mediaType), Sanitize(st.peerID)])[|cfg.out|];
  }

  /** Then everything a reconcile may create lies in the two folders the sweep looks in. */
  lemma ConfinedIsSweepable(cfg: Config, items: map<string, Item>, p: Path)
    requires Confined(cfg, items) && (Owned(cfg, items, p) || Stray(cfg, items, p))
    ensures Sweepable(cfg, p)
  {
    if id :| Owns(cfg, items, id, p) {
      OwnedIsNoTemp(cfg, items, p);
    } else {
      var id, q :| Owns(cfg, items, id, q) && Siblings(p, q);
      SiblingInMediaFolder(cfg, p, q);
    }
  }

  lemma SiblingInMediaFolder(cfg: Config, p: Path, q: Path)
    requires Siblings(p, q) && InMediaFolder(cfg, q)
    ensures InMediaFolder(cfg, p)
  {
    var n := |cfg.out|;
    assert q[..|q| - 1][n] == q[n] && p[..|p| - 1][n] == p[n];
    assert forall i | 0 <= i < n :: q[..|q| - 1][i] == q[i] && p[..|p| - 1][i] == p[i];
  }

  lemma LastOfSuffix(s: string, suffix: string)
    requires HasSuffix(s, suffix) && suffix != ""
    ensures s[|s| - 1] == suffix[|suffix| - 1]
  {
    assert s[|s| - |suffix|..][|suffix| - 1] == s[|s| - 1];
  }

  // ------------------------------------------------------------------- runs

  datatype PathUpdate = PathUpdate(id: string, path: Option<Path>)

  /** A reconcile in progress: the disk, the paths the sweep must spare, the paths taken, the updates to save. */
  datatype Run = Run(files: Files, keep: set<Path>, claimed: set<Path>, updates: seq<PathUpdate>, failed: nat)

  /** The recorded path of id once the updates are applied in order. */
  function PathAfter(updates: seq<PathUpdate>, id: string, path: Option<Path>): Option<Path> {
    if updates == [] then path
    else if updates[|updates| - 1].id == id then updates[|updates| - 1].path
    else PathAfter(updates[..|updates| - 1], id, path)
  }

  /** One row's work: where its file belongs (nowhere if unwanted), what it holds, where it is recorded. */
  datatype Job = Job(id: string, goal: Option<Path>, url: string, recorded: Option<Path>)
  {
    /** The recorded path, if its file has to go. */
    function Leaving(): set<Path> {
      if recorded.Some? && recorded != goal then {recorded.value} else {}
    }
  }

  function JobOf(cfg: Config, id: string, it: Item): Job {
    Job(id, Goal(cfg, id, it), StreamURL(cfg, it), it.strmPath)
  }

  /** What a row, however far it gets, may do to the file at p. */
  predicate Edit(cfg: Config, j: Job, files: Files, files': Files, p: Path) {
    || Get(files', p) == Get(files, p)
    || (p in j.Leaving() && p !in files')
    || (j.goal == Some(p) && Get(files', p) == Some(j.url))
    || (j.goal.Some? && Temp(p) && Siblings(p, j.goal.value) && p !in files)
  }

  /** The old file goes only once the new one is there. */
  predicate NewBeforeOld(j: Job, files: Files, files': Files) {
    j.goal.Some? && j.recorded.Some? && j.recorded.value in files && j.recorded.value !in files' ==>
      Get(files', j.goal.value) == Some(j.url)
  }

  ghost predicate Edited(cfg: Config, j: Job, files: Files, files': Files) {
    (forall p :: Edit(cfg, j, files, files', p)) && NewBeforeOld(j, files, files')
  }

  /** One row reconciled, every operation on it failing or not. */
  ghost predicate RowDone(cfg: Config, j: Job, s: Run, s': Run) {
    && Edited(cfg, j, s.files, s'.files)
    && (s'.failed == s.failed || s'.failed == s.failed + 1)
    && if j.goal.None? then
         && s'.claimed == s.claimed
         && if s'.failed == s.failed then
              && s'.files == s.files - j.Leaving() && s'.keep == s.keep
              && s'.updates == if j.recorded.Some? then s.updates + [PathUpdate(j.id, None)] else s.updates
            else
              s'.files == s.files && s'.keep == s.keep + j.Leaving() && s'.updates == s.updates
       else if j.goal.value in s.claimed then
         s' == s.(keep := s.keep + j.Leaving(), failed := s.failed + 1)
       else
         && s'.claimed == s.claimed + {j.goal.value}
         && if s'.failed == s.failed then
              && s'.files == s.files[j.goal.value := j.url] - j.Leaving()
              && s'.keep == s.keep - j.Leaving() + {j.goal.value}
              && s'.updates == if j.recorded == j.goal then s.updates else s.updates + [PathUpdate(j.id, j.goal)]
            else
              && s'.keep == s.keep + j.Leaving() + {j.goal.value} && s'.updates == s.updates
              && forall p | p in s.files :: p in s'.files
  }

  lemma PathAfterMore(updates: seq<PathUpdate>, u: PathUpdate, id: string, path: Option<Path>)
    ensures PathAfter(updates + [u], id, path) == if u.id == id then u.path else PathAfter(updates, id, path)
  {
    assert (updates + [u])[..|updates|] == updates;
  }

  /** A row's updates touch its own recorded path only. */
  lemma UpdatesOf(cfg: Config, id: string, it: Item, s: Run, s': Run, x: string, path: Option<Path>)
    requires RowDone(cfg, JobOf(cfg, id, it), s, s')
    ensures x != id ==> PathAfter(s'.updates, x, path) == PathAfter(s.updates, x, path)
    ensures x == id && s'.updates != s.updates ==> PathAfter(s'.updates, x, path) == Goal(cfg, id, it)
  {
    if s'.updates != s.updates {
      PathAfterMore(s.updates, s'.updates[|s.updates|], x, path);
    }
  }

  // ------------------------------------------------- what every run keeps

  /** The sweep will not delete a .strm file at p. */
  predicate Kept(cfg: Config, s: Run, p: Path) {
    p in s.keep || p !in s.files || Temp(p)
  }

  /** The file at p is that of a wanted row whose place it is. */
  ghost predicate HoldsOwn(cfg: Config, items: map<string, Item>, files: Files, p: Path) {
    exists id :: Owns(cfg, items, id, p) && Get(files, p) == Some(StreamURL(cfg, items[id]))
  }

  /** p lost its file, or holds that of a row whose place it is. */
  ghost predicate Vacated(cfg: Config, items: map<string, Item>, files: Files, p: Path) {
    p !in files || Stray(cfg, items, p) || HoldsOwn(cfg, items, files, p)
  }

  /** What holds of a processed row whatever failed. */
  ghost predicate Settled(cfg: Config, items: map<string, Item>, s: Run, id: string)
    requires id in items
  {
    var it := items[id];
    var path := PathAfter(s.updates, id, it.strmPath);
    && (path == it.strmPath || path == Goal(cfg, id, it))
    && (path.Some? ==> Kept(cfg, s, path.value))
    && (Wanted(it) ==> Kept(cfg, s, DesiredPath(cfg, id, it)))
    && (it.strmPath.Some? ==> Kept(cfg, s, it.strmPath.value))
    && (path != it.strmPath && it.strmPath.Some? ==> Vacated(cfg, items, s.files, it.strmPath.value))
  }

  lemma KeptStays(cfg: Config, id: string, it: Item, s: Run, s': Run, p: Path)
    requires RowDone(cfg, JobOf(cfg, id, it), s, s') && Kept(cfg, s, p)
    ensures Kept(cfg, s', p)
  {
    assert Edit(cfg, JobOf(cfg, id, it), s.files, s'.files, p);
  }

  lemma EditedStray(cfg: Config, items: map<string, Item>, id: string, p: Path)
    requires id in items
    ensures Temp(p) && !Stray(cfg, items, p) && Goal(cfg, id, items[id]).Some? ==>
              !Siblings(p, Goal(cfg, id, items[id]).value)
  {
    if Goal(cfg, id, items[id]).Some? {
      assert Owns(cfg, items, id, Goal(cfg, id, items[id]).value);
    }
  }

  lemma VacatedStays(cfg: Config, items: map<string, Item>, id: string, files: Files, files': Files, p: Path)
    requires id in items && Edit(cfg, JobOf(cfg, id, items[id]), files, files', p) && Vacated(cfg, items, files, p)
    ensures Vacated(cfg, items, files', p)
  {
    if Goal(cfg, id, items[id]) == Some(p) {
      assert Owns(cfg, items, id, p);
    }
    EditedStray(cfg, items, id, p);
  }

  lemma SettledStays(cfg: Config, items: map<string, Item>, id: string, s: Run, s': Run, x: string)
    requires id in items && RowDone(cfg, JobOf(cfg, id, items[id]), s, s')
    requires x in items && x != id && Settled(cfg, items, s, x)
    ensures Settled(cfg, items, s', x)
  {
    var it := items[x];
    var path := PathAfter(s.updates, x, it.strmPath);
    UpdatesOf(cfg, id, items[id], s, s', x, it.strmPath);
    if path.Some? {
      KeptStays(cfg, id, items[id], s, s', path.value);
    }
    if Wanted(it) {
      KeptStays(cfg, id, items[id], s, s', DesiredPath(cfg, x, it));
    }
    if it.strmPath.Some? {
      KeptStays(cfg, id, items[id], s, s', it.strmPath.value);
      assert Edit(cfg, JobOf(cfg, id, items[id]), s.files, s'.files, it.strmPath.value);
      if path != it.strmPath {
        VacatedStays(cfg, items, id, s.files, s'.files, it.strmPath.value);
      }
    }
  }

  lemma SettledNow(cfg: Config, items: map<string, Item>, id: string, s: Run, s': Run)
    requires id in items && RowDone(cfg, JobOf(cfg, id, items[id]), s, s')
    requires PathAfter(s.updates, id, items[id].strmPath) == items[id].strmPath
    requires forall p | p in s.claimed :: Kept(cfg, s, p)
    ensures Settled(cfg, items, s', id)
  {
    var it := items[id];
    UpdatesOf(cfg, id, it, s, s', id, it.strmPath);
    if Wanted(it) && DesiredPath(cfg, id, it) in s.claimed {
      KeptStays(cfg, id, it, s, s', DesiredPath(cfg, id, it));
    }
  }

  /** The disk at p, compared to when the reconcile started. */
  ghost predicate Framed(cfg: Config, items: map<string, Item>, files: Files, files': Files, p: Path) {
    !Stray(cfg, items, p) ==>
      && (Get(files', p) == Get(files, p) || p !in files' || HoldsOwn(cfg, items, files', p))
      && (!Owned(cfg, items, p) && !Sweepable(cfg, p) && !Recorded(items, p) ==> Get(files', p) == Get(files, p))
  }

  lemma FramedStays(cfg: Config, items: map<string, Item>, id: string, files0: Files, files: Files, files': Files,
                    p: Path)
    requires id in items && Edit(cfg, JobOf(cfg, id, items[id]), files, files', p)
    requires Framed(cfg, items, files0, files, p)
    ensures Framed(cfg, items, files0, files', p)
  {
    if Goal(cfg, id, items[id]) == Some(p) {
      assert Owns(cfg, items, id, p);
    }
    EditedStray(cfg, items, id, p);
  }

  // -------------------------------------------------- when nothing failed

  /** Row y, processed after the wanted row x, clears the path x's new file is at. */
  predicate Overrun(cfg: Config, items: map<string, Item>, x: string, y: string) {
    x in items && y in items && Wanted(items[x]) && Less(x, y) && Stale(cfg, y, items[y], DesiredPath(cfg, x, items[x]))
  }

  ghost predicate Overruns(cfg: Config, items: map<string, Item>) {
    exists x, y :: Overrun(cfg, items, x, y)
  }

  /** What the rows in done leave behind at the path of the wanted row x. */
  ghost predicate CleanOwn(cfg: Config, items: map<string, Item>, done: set<string>, s: Run, x: string)
    requires x in items
  {
    var d := DesiredPath(cfg, x, items[x]);
    Wanted(items[x]) ==>
      && d in s.claimed
      && if exists y :: y in done && Overrun(cfg, items, x, y) then d !in s.files
         else Get(s.files, d) == Some(StreamURL(cfg, items[x])) && d in s.keep
  }

  /** A processed row's recorded path when nothing failed. */
  ghost predicate CleanRow(cfg: Config, items: map<string, Item>, s: Run, x: string)
    requires x in items
  {
    && PathAfter(s.updates, x, items[x].strmPath) == Goal(cfg, x, items[x])
    && (items[x].strmPath.Some? && !Owned(cfg, items, items[x].strmPath.value) ==> items[x].strmPath.value !in s.files)
  }

  /** Paths no wanted row owns are neither kept nor claimed, and change only by being cleared. */
  ghost predicate CleanRest(cfg: Config, items: map<string, Item>, files: Files, s: Run, p: Path) {
    !Owned(cfg, items, p) ==>
      && p !in s.keep && p !in s.claimed
      && (!Recorded(items, p) ==> Get(s.files, p) == Get(files, p))
  }

  lemma CleanOwnStays(cfg: Config, items: map<string, Item>, done: set<string>, id: string, s: Run, s': Run, x: string)
    requires id in items && id !in done && RowDone(cfg, JobOf(cfg, id, items[id]), s, s') && s'.failed == s.failed
    requires x in done && x in items && Less(x, id) && CleanOwn(cfg, items, done, s, x)
    ensures CleanOwn(cfg, items, done + {id}, s', x)
  {
    if Wanted(items[x]) {
      var j, d := JobOf(cfg, id, items[id]), DesiredPath(cfg, x, items[x]);
      CleanElsewhere(cfg, j, s, s', d);
      LeavesIfOverruns(cfg, items, x, id);
      OverrunBy(cfg, items, done, id, x);
    }
  }

  /** Of a later row: it leaves x's path exactly if it overruns x. */
  lemma LeavesIfOverruns(cfg: Config, items: map<string, Item>, x: string, id: string)
    requires x in items && id in items && Wanted(items[x]) && Less(x, id)
    ensures Overrun(cfg, items, x, id) <==> DesiredPath(cfg, x, items[x]) in JobOf(cfg, id, items[id]).Leaving()
  {
  }

  lemma OverrunBy(cfg: Config, items: map<string, Item>, done: set<string>, id: string, x: string)
    ensures (exists y :: y in done + {id} && Overrun(cfg, items, x, y)) <==>
            (exists y :: y in done && Overrun(cfg, items, x, y)) || Overrun(cfg, items, x, id)
  {
    if y :| y in done && Overrun(cfg, items, x, y) {
      assert y in done + {id};
    }
    if Overrun(cfg, items, x, id) {
      assert id in done + {id};
    }
  }

  /** A clean row leaves a claimed path alone, except to clear it. */
  lemma CleanElsewhere(cfg: Config, j: Job, s: Run, s': Run, d: Path)
    requires RowDone(cfg, j, s, s') && s'.failed == s.failed && d in s.claimed
    ensures d in s'.claimed
    ensures Get(s'.files, d) == if d in j.Leaving() then None else Get(s.files, d)
    ensures d !in j.Leaving() ==> (d in s'.keep <==> d in s.keep)
  {
  }

  lemma CleanOwnNow(cfg: Config, items: map<string, Item>, done: set<string>, id: string, s: Run, s': Run)
    requires id in items && RowDone(cfg, JobOf(cfg, id, items[id]), s, s') && s'.failed == s.failed
    requires forall y | y in done :: Less(y, id)
    ensures CleanOwn(cfg, items, done + {id}, s', id)
  {
    forall y | y in done + {id} ensures !Overrun(cfg, items, id, y) {
      LessTotal(y, id);
    }
  }

  lemma CleanRowStays(cfg: Config, items: map<string, Item>, id: string, s: Run, s': Run, x: string)
    requires id in items && RowDone(cfg, JobOf(cfg, id, items[id]), s, s') && s'.failed == s.failed
    requires x in items && x != id && CleanRow(cfg, items, s, x)
    ensures CleanRow(cfg, items, s', x)
  {
    UpdatesOf(cfg, id, items[id], s, s', x, items[x].strmPath);
    if Wanted(items[id]) {
      assert Owns(cfg, items, id, DesiredPath(cfg, id, items[id]));
    }
  }

  lemma CleanRowNow(cfg: Config, items: map<string, Item>, id: string, s: Run, s': Run)
    requires id in items && RowDone(cfg, JobOf(cfg, id, items[id]), s, s') && s'.failed == s.failed
    requires PathAfter(s.updates, id, items[id].strmPath) == items[id].strmPath
    ensures CleanRow(cfg, items, s', id)
  {
    UpdatesOf(cfg, id, items[id], s, s', id, items[id].strmPath);
    if Wanted(items[id]) {
      assert Owns(cfg, items, id, DesiredPath(cfg, id, items[id]));
    }
  }

  lemma CleanRestStays(cfg: Config, items: map<string, Item>, files: Files, id: string, s: Run, s': Run, p: Path)
    requires id in items && RowDone(cfg, JobOf(cfg, id, items[id]), s, s') && s'.failed == s.failed
    requires CleanRest(cfg, items, files, s, p)
    ensures CleanRest(cfg, items, files, s', p)
  {
    if !Owned(cfg, items, p) {
      assert !Owns(cfg, items, id, p);
      NotTouched(cfg, JobOf(cfg, id, items[id]), s, s', p);
      if p in JobOf(cfg, id, items[id]).Leaving() {
        assert items[id].strmPath == Some(p);
      }
    }
  }

  /** A clean row neither claims nor starts to keep another path, and only clears the one it leaves. */
  lemma NotTouched(cfg: Config, j: Job, s: Run, s': Run, p: Path)
    requires RowDone(cfg, j, s, s') && s'.failed == s.failed && j.goal != Some(p)
    requires p !in s.keep && p !in s.claimed
    ensures p !in s'.keep && p !in s'.claimed
    ensures p !in j.Leaving() ==> Get(s'.files, p) == Get(s.files, p)
  {
  }

  // ------------------------------------------------------ whole reconciles

  /** The disk holds, at p, what the table says and nothing stale. */
  ghost predicate CleanAt(cfg: Config, items: map<string, Item>, files: Files, files': Files, p: Path) {
    && (forall id | Owns(cfg, items, id, p) :: Get(files', p) == Some(StreamURL(cfg, items[id])))
    && (!Owned(cfg, items, p) ==>
          Get(files', p) == if Sweepable(cfg, p) || Recorded(items, p) then None else Get(files, p))
  }

  /**
    The .strm files under movies/ and series/ are exactly desired path to stream URL over
    the wanted rows; every other file outlives the reconcile unless a row recorded it.
   */
  ghost predicate CleanDisk(cfg: Config, items: map<string, Item>, files: Files, files': Files) {
    forall p :: CleanAt(cfg, items, files, files', p)
  }

  /** The recorded paths are exactly the wanted rows' paths. */
  function Recordings(cfg: Config, items: map<string, Item>): map<string, Item> {
    map id | id in items :: Item(items[id].st, Goal(cfg, id, items[id]))
  }

  /** How a table and disk may differ from what a reconcile, finished or not, started with. */
  ghost predicate Progress(cfg: Config, items: map<string, Item>, files: Files, items': map<string, Item>,
                           files': Files) {
    && items'.Keys == items.Keys
    && (forall id | id in items :: RowProgress(cfg, items, items', files', id))
    && (forall p :: Framed(cfg, items, files, files', p))
  }

  ghost predicate RowProgress(cfg: Config, items: map<string, Item>, items': map<string, Item>, files': Files,
                              id: string)
    requires id in items && id in items'
  {
    var it, it' := items[id], items'[id];
    && it'.st == it.st
    && (it'.strmPath == it.strmPath || it'.strmPath == Goal(cfg, id, it))
    && (it'.strmPath != it.strmPath && it.strmPath.Some? ==> Vacated(cfg, items, files', it.strmPath.value))
  }

  /** Same rows up to recorded paths, each old or final. */
  ghost predicate Advances(cfg: Config, items: map<string, Item>, items': map<string, Item>) {
    && items'.Keys == items.Keys
    && forall id {:trigger RowAdvances(cfg, items, items', id)} | id in items :: RowAdvances(cfg, items, items', id)
  }

  ghost predicate RowAdvances(cfg: Config, items: map<string, Item>, items': map<string, Item>, id: string)
    requires id in items && id in items'
  {
    && items'[id].st == items[id].st
    && (items'[id].strmPath == items[id].strmPath || items'[id].strmPath == Goal(cfg, id, items[id]))
  }

  lemma SameGoal(cfg: Config, id: string, it: Item, it': Item)
    requires it'.st == it.st
    ensures Wanted(it') == Wanted(it) && Goal(cfg, id, it') == Goal(cfg, id, it)
    ensures StreamURL(cfg, it') == StreamURL(cfg, it)
  {
  }

  lemma ProgressAdvances(cfg: Config, items: map<string, Item>, files: Files, items': map<string, Item>, files': Files)
    requires Progress(cfg, items, files, items', files')
    ensures Advances(cfg, items, items')
  {
    forall id | id in items ensures RowAdvances(cfg, items, items', id) {
      assert RowProgress(cfg, items, items', files', id);
    }
  }

  /** The sweep's effect at p. */
  predicate SweptAt(cfg: Config, keep: set<Path>, files: Files, files': Files, p: Path) {
    Get(files', p) == Get(files, p) || (Sweepable(cfg, p) && p !in keep && p !in files')
  }

  /** The loop over the rows ended with nothing failed and the sweep deleted all it could: the result is exact. */
  lemma CleanEnd(cfg: Config, items: map<string, Item>, files: Files, s: Run, files': Files)
    requires forall x | x in items :: CleanOwn(cfg, items, items.Keys, s, x) && CleanRow(cfg, items, s, x)
    requires forall p :: CleanRest(cfg, items, files, s, p)
    requires forall p ::
               SweptAt(cfg, s.keep, s.files, files', p) && (Sweepable(cfg, p) && p !in s.keep ==> p !in files')
    ensures CleanDisk(cfg, items, files, files') <==> !Overruns(cfg, items)
  {
    if x, y :| Overrun(cfg, items, x, y) {
      var d := DesiredPath(cfg, x, items[x]);
      assert CleanOwn(cfg, items, items.Keys, s, x) && y in items.Keys;
      assert SweptAt(cfg, s.keep, s.files, files', d);
      assert Owns(cfg, items, x, d) && !CleanAt(cfg, items, files, files', d);
    } else {
      forall p ensures CleanAt(cfg, items, files, files', p) {
        CleanEndAt(cfg, items, files, s, files', p);
      }
    }
  }

  lemma CleanEndAt(cfg: Config, items: map<string, Item>, files: Files, s: Run, files': Files, p: Path)
    requires forall x | x in items :: CleanOwn(cfg, items, items.Keys, s, x) && CleanRow(cfg, items, s, x)
    requires CleanRest(cfg, items, files, s, p)
    requires SweptAt(cfg, s.keep, s.files, files', p) && (Sweepable(cfg, p) && p !in s.keep ==> p !in files')
    requires !Overruns(cfg, items)
    ensures CleanAt(cfg, items, files, files', p)
  {
    forall id | Owns(cfg, items, id, p) ensures Get(files', p) == Some(StreamURL(cfg, items[id])) {
      assert CleanOwn(cfg, items, items.Keys, s, id);
    }
    if !Owned(cfg, items, p) && Recorded(items, p) {
      var id :| id in items && items[id].strmPath == Some(p);
      assert CleanRow(cfg, items, s, id);
    }
  }

  // ------------------------------------------------- the loop over the rows

  /** What holds after the rows in done, whatever failed. */
  ghost predicate Safe(cfg: Config, items: map<string, Item>, done: set<string>, s: Run) {
    && (forall x | x in done :: x in items && Settled(cfg, items, s, x))
    && (forall x | x in items && x !in done :: PathAfter(s.updates, x, items[x].strmPath) == items[x].strmPath)
    && (forall p | p in s.claimed :: Kept(cfg, s, p))
  }

  ghost predicate AllFramed(cfg: Config, items: map<string, Item>, files: Files, files': Files) {
    forall p :: Framed(cfg, items, files, files', p)
  }

  ghost predicate CleanSoFar(cfg: Config, items: map<string, Item>, files: Files, done: set<string>, s: Run) {
    && (forall x | x in done :: x in items && CleanOwn(cfg, items, done, s, x) && CleanRow(cfg, items, s, x))
    && (forall p :: CleanRest(cfg, items, files, s, p))
  }

  lemma SafeStep(cfg: Config, items: map<string, Item>, done: set<string>, id: string, s: Run, s': Run)
    requires id in items && id !in done && RowDone(cfg, JobOf(cfg, id, items[id]), s, s')
    requires Safe(cfg, items, done, s)
    ensures Safe(cfg, items, done + {id}, s')
  {
    forall x | x in done + {id} ensures x in items && Settled(cfg, items, s', x) {
      if x == id {
        SettledNow(cfg, items, id, s, s');
      } else {
        SettledStays(cfg, items, id, s, s', x);
      }
    }
    forall x | x in items && x !in done + {id}
      ensures PathAfter(s'.updates, x, items[x].strmPath) == items[x].strmPath
    {
      UpdatesOf(cfg, id, items[id], s, s', x, items[x].strmPath);
    }
    forall p | p in s'.claimed ensures Kept(cfg, s', p) {
      if p in s.claimed {
        KeptStays(cfg, id, items[id], s, s', p);
      }
    }
  }

  lemma FramedStep(cfg: Config, items: map<string, Item>, id: string, files0: Files, files: Files, files': Files)
    requires id in items && Edited(cfg, JobOf(cfg, id, items[id]), files, files') &&
             AllFramed(cfg, items, files0, files)
    ensures AllFramed(cfg, items, files0, files')
  {
    forall p ensures Framed(cfg, items, files0, files', p) {
      FramedStays(cfg, items, id, files0, files, files', p);
    }
  }

  lemma CleanStep(cfg: Config, items: map<string, Item>, files: Files, done: set<string>, id: string, s: Run, s': Run)
    requires id in items && id !in done && (forall x | x in done :: Less(x, id))
    requires RowDone(cfg, JobOf(cfg, id, items[id]), s, s') && s'.failed == s.failed
    requires Safe(cfg, items, done, s) && CleanSoFar(cfg, items, files, done, s)
    ensures CleanSoFar(cfg, items, files, done + {id}, s')
  {
    forall x | x in done + {id} ensures x in items && CleanOwn(cfg, items, done + {id}, s', x) {
      if x == id {
        CleanOwnNow(cfg, items, done, id, s, s');
      } else {
        CleanOwnStays(cfg, items, done, id, s, s', x);
      }
    }
    forall x | x in done + {id} ensures CleanRow(cfg, items, s', x) {
      if x == id {
        CleanRowNow(cfg, items, id, s, s');
      } else {
        CleanRowStays(cfg, items, id, s, s', x);
      }
    }
    forall p ensures CleanRest(cfg, items, files, s', p) {
      CleanRestStays(cfg, items, files, id, s, s', p);
    }
  }

  /** Everything that holds after the rows in done. */
  ghost predicate Reached(cfg: Config, items: map<string, Item>, files: Files, done: set<string>, s: Run) {
    && Safe(cfg, items, done, s) && AllFramed(cfg, items, files, s.files)
    && (s.failed == 0 ==> CleanSoFar(cfg, items, files, done, s))
  }

  lemma ReachedStart(cfg: Config, items: map<string, Item>, files: Files)
    ensures Reached(cfg, items, files, {}, Run(files, {}, {}, [], 0))
  {
  }

  /** Processing rows in id order, whatever fails, keeps all of it. */
  lemma ReachedStep(cfg: Config, items: map<string, Item>, files: Files, done: set<string>, id: string, s: Run, s': Run)
    requires id in items && id !in done && (forall x | x in done :: Less(x, id))
    requires RowDone(cfg, JobOf(cfg, id, items[id]), s, s')
    requires Reached(cfg, items, files, done, s)
    ensures Reached(cfg, items, files, done + {id}, s')
  {
    SafeStep(cfg, items, done, id, s, s');
    FramedStep(cfg, items, id, files, s.files, s'.files);
    if s'.failed == 0 {
      CleanStep(cfg, items, files, done, id, s, s');
    }
  }

  /**
    The rows of a reconcile in id order, its state before the first and after each that ended, and
    whether its sweep began.
   */
  datatype Trace = Trace(q: seq<string>, runs: seq<Run>, swept: bool)
  {
    predicate Whole() {
      |runs| == |q| + 1
    }

    function End(): Run
      requires runs != []
    {
      runs[|runs| - 1]
    }
  }

  ghost predicate RowRan(cfg: Config, items: map<string, Item>, q: seq<string>, runs: seq<Run>, i: nat)
    requires i + 1 < |runs| <= |q| + 1
  {
    q[i] in items && RowDone(cfg, JobOf(cfg, q[i], items[q[i]]), runs[i], runs[i + 1])
  }

  /** The rows were taken in id order, each by a step as specified. */
  ghost predicate RowsRan(cfg: Config, items: map<string, Item>, files: Files, tr: Trace) {
    && Sorts(tr.q, items.Keys)
    && 0 < |tr.runs| <= |tr.q| + 1
    && tr.runs[0] == Run(files, {}, {}, [], 0)
    && forall i: nat | i < |tr.runs| - 1 :: RowRan(cfg, items, tr.q, tr.runs, i)
  }

  /** So everything above holds after any number of rows. */
  lemma {:induction false} RanReached(cfg: Config, items: map<string, Item>, files: Files, tr: Trace, i: nat)
    requires RowsRan(cfg, items, files, tr) && i < |tr.runs|
    ensures Reached(cfg, items, files, Upto(tr.q, i), tr.runs[i])
  {
    if i == 0 {
      ReachedStart(cfg, items, files);
    } else {
      var k := i - 1;
      RanReached(cfg, items, files, tr, k);
      assert RowRan(cfg, items, tr.q, tr.runs, k);
      SortedNext(tr.q, items.Keys, k);
      ReachedStep(cfg, items, files, Upto(tr.q, k), tr.q[k], tr.runs[k], tr.runs[i]);
    }
  }

  /** A row is to be recorded where it was, or where it belongs. */
  lemma EitherPath(cfg: Config, items: map<string, Item>, files: Files, tr: Trace, x: string)
    requires RowsRan(cfg, items, files, tr) && x in items
    ensures var path := PathAfter(tr.End().updates, x, items[x].strmPath);
            path == items[x].strmPath || path == Goal(cfg, x, items[x])
  {
    var i := |tr.runs| - 1;
    RanReached(cfg, items, files, tr, i);
    EitherAt(cfg, items, Upto(tr.q, i), tr.runs[i], x);
  }

  lemma EitherAt(cfg: Config, items: map<string, Item>, done: set<string>, s: Run, x: string)
    requires Safe(cfg, items, done, s) && x in items
    ensures var path := PathAfter(s.updates, x, items[x].strmPath);
            path == items[x].strmPath || path == Goal(cfg, x, items[x])
  {
    if x in done {
      assert Settled(cfg, items, s, x);
    }
  }

  /** Extends a trace by one row. */
  lemma RowsRanMore(cfg: Config, items: map<string, Item>, files: Files, tr: Trace, id: string, s: Run)
    requires RowsRan(cfg, items, files, tr) && |tr.runs| <= |tr.q| && tr.q[|tr.runs| - 1] == id && id in items
    requires RowDone(cfg, JobOf(cfg, id, items[id]), tr.End(), s)
    ensures RowsRan(cfg, items, files, tr.(runs := tr.runs + [s]))
  {
    RanLast(cfg, items, tr, id, s);
    EarlierRan(cfg, items, files, tr, s);
    StillRan(cfg, items, files, tr, tr.runs + [s]);
  }

  lemma StillRan(cfg: Config, items: map<string, Item>, files: Files, tr: Trace, runs: seq<Run>)
    requires RowsRan(cfg, items, files, tr) && 1 < |runs| <= |tr.q| + 1 && runs[0] == tr.runs[0]
    requires forall i: nat | i < |runs| - 2 :: RowRan(cfg, items, tr.q, runs, i)
    requires RowRan(cfg, items, tr.q, runs, |runs| - 2)
    ensures RowsRan(cfg, items, files, tr.(runs := runs))
  {
    forall i: nat | i < |runs| - 1 ensures RowRan(cfg, items, tr.q, runs, i) {
      assert i == |runs| - 2 || i < |runs| - 2;
    }
  }

  lemma EarlierRan(cfg: Config, items: map<string, Item>, files: Files, tr: Trace, s: Run)
    requires RowsRan(cfg, items, files, tr) && |tr.runs| <= |tr.q|
    ensures forall i: nat | i < |tr.runs| - 1 :: RowRan(cfg, items, tr.q, tr.runs + [s], i)
  {
    var runs := tr.runs + [s];
    forall i: nat | i < |tr.runs| - 1 ensures RowRan(cfg, items, tr.q, runs, i) {
      assert RowRan(cfg, items, tr.q, tr.runs, i);
      RanBefore(cfg, items, tr.q, tr.runs, s, i);
    }
  }

  lemma RanBefore(cfg: Config, items: map<string, Item>, q: seq<string>, runs: seq<Run>, s: Run, i: nat)
    requires i + 1 < |runs| <= |q| && RowRan(cfg, items, q, runs, i)
    ensures RowRan(cfg, items, q, runs + [s], i)
  {
    assert (runs + [s])[i] == runs[i] && (runs + [s])[i + 1] == runs[i + 1];
  }

  lemma RanLast(cfg: Config, items: map<string, Item>, tr: Trace, id: string, s: Run)
    requires 0 < |tr.runs| <= |tr.q| && tr.q[|tr.runs| - 1] == id && id in items
    requires RowDone(cfg, JobOf(cfg, id, items[id]), tr.End(), s)
    ensures RowRan(cfg, items, tr.q, tr.runs + [s], |tr.runs| - 1)
  {
    RanAt(cfg, items, tr.q, tr.runs + [s], |tr.runs| - 1, id, tr.End(), s);
  }

  lemma RanAt(cfg: Config, items: map<string, Item>, q: seq<string>, runs: seq<Run>, i: nat, id: string, s: Run,
              s': Run)
    requires i + 1 < |runs| <= |q| + 1 && q[i] == id && id in items && runs[i] == s && runs[i + 1] == s'
    requires RowDone(cfg, JobOf(cfg, id, items[id]), s, s')
    ensures RowRan(cfg, items, q, runs, i)
  {
  }

  // --------------------------------------------------- saving and sweeping

  function Applied(items: map<string, Item>, updates: seq<PathUpdate>): map<string, Item> {
    map id | id in items :: Item(items[id].st, PathAfter(updates, id, items[id].strmPath))
  }

  /** Stopped before the updates are saved. */
  lemma ProgressUnsaved(cfg: Config, items: map<string, Item>, files: Files, files': Files)
    requires AllFramed(cfg, items, files, files')
    ensures Progress(cfg, items, files, items, files')
  {
  }

  /** The updates saved and the sweep stopped anywhere. */
  lemma ProgressSaved(cfg: Config, items: map<string, Item>, files: Files, s: Run, files': Files)
    requires Safe(cfg, items, items.Keys, s) && AllFramed(cfg, items, files, s.files)
    requires forall p :: SweptAt(cfg, s.keep, s.files, files', p)
    ensures Progress(cfg, items, files, Applied(items, s.updates), files')
  {
    var items' := Applied(items, s.updates);
    forall id | id in items ensures RowProgress(cfg, items, items', files', id) {
      assert id in items.Keys && Settled(cfg, items, s, id);
      if items[id].strmPath.Some? {
        assert SweptAt(cfg, s.keep, s.files, files', items[id].strmPath.value);
      }
    }
    forall p ensures Framed(cfg, items, files, files', p) {
      assert Framed(cfg, items, files, s.files, p) && SweptAt(cfg, s.keep, s.files, files', p);
    }
  }

  /** The sweep leaves every tracked row's .strm file alone. */
  ghost predicate TrackedSpared(cfg: Config, items: map<string, Item>, staged: Files, files: Files) {
    forall id, p | id in items && (items[id].strmPath == Some(p) || Owns(cfg, items, id, p)) && !Temp(p) ::
      Get(files, p) == Get(staged, p)
  }

  lemma SweepSpares(cfg: Config, items: map<string, Item>, s: Run, files': Files)
    requires Safe(cfg, items, items.Keys, s)
    requires forall p :: SweptAt(cfg, s.keep, s.files, files', p)
    ensures TrackedSpared(cfg, Applied(items, s.updates), s.files, files')
  {
    var items' := Applied(items, s.updates);
    forall id, p | id in items' && (items'[id].strmPath == Some(p) || Owns(cfg, items', id, p)) && !Temp(p)
      ensures Get(files', p) == Get(s.files, p)
    {
      assert id in items.Keys && Settled(cfg, items, s, id) && Kept(cfg, s, p);
      assert SweptAt(cfg, s.keep, s.files, files', p);
    }
  }

  lemma CleanTable(cfg: Config, items: map<string, Item>, files: Files, s: Run)
    requires CleanSoFar(cfg, items, files, items.Keys, s)
    ensures Applied(items, s.updates) == Recordings(cfg, items)
  {
    forall x | x in items ensures PathAfter(s.updates, x, items[x].strmPath) == Goal(cfg, x, items[x]) {
      assert x in items.Keys && CleanRow(cfg, items, s, x);
    }
  }

  /** A reconcile whose updates are saved keeps everything, wherever its sweep stops. */
  lemma SavedEnd(cfg: Config, items: map<string, Item>, files: Files, s: Run, files': Files)
    requires Reached(cfg, items, files, items.Keys, s)
    requires forall p :: SweptAt(cfg, s.keep, s.files, files', p)
    ensures Progress(cfg, items, files, Applied(items, s.updates), files')
    ensures TrackedSpared(cfg, Applied(items, s.updates), s.files, files')
  {
    ProgressSaved(cfg, items, files, s, files');
    SweepSpares(cfg, items, s, files');
  }

  /**
    If moreover nothing failed, it ends with the exact table, and with the exact disk unless rows
    overrun each other.
   */
  lemma ExactEnd(cfg: Config, items: map<string, Item>, files: Files, s: Run, files': Files)
    requires Reached(cfg, items, files, items.Keys, s) && s.failed == 0
    requires forall p :: SweptAt(cfg, s.keep, s.files, files', p)
    requires forall p | Sweepable(cfg, p) && p !in s.keep :: p !in files'
    ensures Applied(items, s.updates) == Recordings(cfg, items)
    ensures CleanDisk(cfg, items, files, files') <==> !Overruns(cfg, items)
  {
    CleanTable(cfg, items, files, s);
    forall x | x in items ensures CleanOwn(cfg, items, items.Keys, s, x) && CleanRow(cfg, items, s, x) {
      assert x in items.Keys;
    }
    CleanEnd(cfg, items, files, s, files');
  }

  // ------------------------------------------------ where a reconcile stops

  /** The process died in the row after the last of tr; a row that is skipped does nothing to die in. */
  ghost predicate CutShort(cfg: Config, items: map<string, Item>, tr: Trace, files: Files)
    requires tr.runs != []
  {
    |tr.runs| <= |tr.q| && tr.q[|tr.runs| - 1] in items &&
    var j := JobOf(cfg, tr.q[|tr.runs| - 1], items[tr.q[|tr.runs| - 1]]);
    Edited(cfg, j, tr.End().files, files) && (j.goal.Some? ==> j.goal.value !in tr.End().claimed)
  }

  /** It stopped before its sweep: after or in some row, or once the updates are saved. */
  ghost predicate StoppedEarly(cfg: Config, items: map<string, Item>, tr: Trace, items': map<string, Item>,
                               files': Files)
    requires tr.runs != []
  {
    || (items' == items && (files' == tr.End().files || CutShort(cfg, items, tr, files')))
    || (tr.Whole() && items' == Applied(items, tr.End().updates) && files' == tr.End().files)
  }

  /** Its updates are saved, and its sweep got anywhere. */
  ghost predicate SweptFrom(cfg: Config, items: map<string, Item>, tr: Trace, items': map<string, Item>, files': Files)
    requires tr.runs != []
  {
    && tr.Whole() && items' == Applied(items, tr.End().updates)
    && forall p :: SweptAt(cfg, tr.End().keep, tr.End().files, files', p)
  }

  lemma WholeReached(cfg: Config, items: map<string, Item>, files: Files, tr: Trace)
    requires RowsRan(cfg, items, files, tr) && tr.Whole()
    ensures Reached(cfg, items, files, items.Keys, tr.End())
  {
    UptoAll(tr.q, items.Keys);
    RanReached(cfg, items, files, tr, |tr.q|);
    SameReached(cfg, items, files, Upto(tr.q, |tr.q|), items.Keys, tr.runs[|tr.q|], tr.End());
  }

  lemma SameReached(cfg: Config, items: map<string, Item>, files: Files, done: set<string>, done': set<string>, s: Run,
                    s': Run)
    requires Reached(cfg, items, files, done, s) && done' == done && s' == s
    ensures Reached(cfg, items, files, done', s')
  {
  }

  /** Before the table is saved, it and the disk are as Progress says. */
  lemma UnsavedEnd(cfg: Config, items: map<string, Item>, files: Files, tr: Trace, files': Files)
    requires RowsRan(cfg, items, files, tr) && (files' == tr.End().files || CutShort(cfg, items, tr, files'))
    ensures Progress(cfg, items, files, items, files')
  {
    RanFramed(cfg, items, files, tr);
    if files' != tr.End().files {
      CutEnd(cfg, items, files, tr, files');
    }
    ProgressUnsaved(cfg, items, files, files');
  }

  lemma RanFramed(cfg: Config, items: map<string, Item>, files: Files, tr: Trace)
    requires RowsRan(cfg, items, files, tr)
    ensures AllFramed(cfg, items, files, tr.End().files)
  {
    RanReached(cfg, items, files, tr, |tr.runs| - 1);
  }

  lemma CutEnd(cfg: Config, items: map<string, Item>, files: Files, tr: Trace, files': Files)
    requires tr.runs != [] && CutShort(cfg, items, tr, files') && AllFramed(cfg, items, files, tr.End().files)
    ensures AllFramed(cfg, items, files, files')
  {
    var id := CutRow(cfg, items, tr, files');
    FramedStep(cfg, items, id, files, tr.End().files, files');
  }

  /** The row the process died in. */
  lemma CutRow(cfg: Config, items: map<string, Item>, tr: Trace, files': Files) returns (id: string)
    requires tr.runs != [] && CutShort(cfg, items, tr, files')
    ensures |tr.runs| <= |tr.q| && id == tr.q[|tr.runs| - 1]
    ensures id in items && Edited(cfg, JobOf(cfg, id, items[id]), tr.End().files, files')
    ensures Goal(cfg, id, items[id]).Some? ==> Goal(cfg, id, items[id]).value !in tr.End().claimed
  {
    id := tr.q[|tr.runs| - 1];
  }

  /** A reconcile, whatever failed in it and wherever it stopped, left this table and disk. */
  ghost predicate Interrupted(cfg: Config, items: map<string, Item>, files: Files, items1: map<string, Item>,
                              files1: Files) {
    exists tr :: RowsRan(cfg, items, files, tr) && StopsAt(cfg, items, tr, items1, files1)
  }

  ghost predicate StopsAt(cfg: Config, items: map<string, Item>, tr: Trace, items1: map<string, Item>, files1: Files)
    requires tr.runs != []
  {
    if tr.swept then SweptFrom(cfg, items, tr, items1, files1) else StoppedEarly(cfg, items, tr, items1, files1)
  }

  /** What holds wherever it stopped before its sweep. */
  lemma EarlyEnd(cfg: Config, items: map<string, Item>, files: Files, tr: Trace, items': map<string, Item>,
                 files': Files)
    requires RowsRan(cfg, items, files, tr) && StoppedEarly(cfg, items, tr, items', files')
    ensures Progress(cfg, items, files, items', files')
  {
    if items' == items && (files' == tr.End().files || CutShort(cfg, items, tr, files')) {
      UnsavedEnd(cfg, items, files, tr, files');
    } else {
      WholeReached(cfg, items, files, tr);
      SavedEnd(cfg, items, files, tr.End(), files');
    }
  }

  /** And wherever its sweep stopped. */
  lemma SweptEnd(cfg: Config, items: map<string, Item>, files: Files, tr: Trace, items': map<string, Item>,
                 files': Files)
    requires RowsRan(cfg, items, files, tr) && SweptFrom(cfg, items, tr, items', files')
    ensures Progress(cfg, items, files, items', files')
    ensures TrackedSpared(cfg, items', tr.End().files, files')
  {
    WholeReached(cfg, items, files, tr);
    SavedEnd(cfg, items, files, tr.End(), files');
  }

  lemma InterruptedIsProgress(cfg: Config, items: map<string, Item>, files: Files, items1: map<string, Item>,
                              files1: Files)
    requires Interrupted(cfg, items, files, items1, files1)
    ensures Progress(cfg, items, files, items1, files1)
  {
    var tr :| RowsRan(cfg, items, files, tr) && StopsAt(cfg, items, tr, items1, files1);
    if tr.swept {
      SweptEnd(cfg, items, files, tr, items1, files1);
    } else {
      EarlyEnd(cfg, items, files, tr, items1, files1);
    }
  }
}
