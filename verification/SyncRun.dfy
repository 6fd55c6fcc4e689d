/**
  One whole cycle (RunLocal, internal/syncrun/syncrun.go): a sync, then a reconcile. What
  peers offer, over the page protocol, the mirrors and the election, becomes exactly the
  .strm files on the disk, and with unchanged inputs a second cycle settles everything.
 */
module SyncRun {
  import opened Wrappers
  import opened Entries
  import opened Feed
  import opened Mirror
  import opened Download
  import opened Election
  import opened Items
  import opened Strm
  import opened Reconcile
  import opened Cycles
  import opened Sync
  import opened Outcomes

  // --------------------------------------------------- what the peers offered

  /** The answers are those of one complete pull h of the peer's feed, from the mirror m. */
  ghost predicate HonestPull(m: Mirror, answers: seq<Answer>, h: History) {
    IsCompletePull(h) && h.run[0].m == m && answers == Answers(h, |h.events|)
  }

  /** All online peers answer with complete pulls of their feeds. */
  ghost predicate Honest(before: map<string, Mirror>, g: Given, pulls: map<string, History>) {
    forall p | p in g.online ::
      p in pulls && p in g.answers && HonestPull(MirrorOf(before, p), g.answers[p], pulls[p])
  }

  /** What p has for this node: what it offered when last asked, or, if it is not online, what was mirrored of it. */
  ghost function Seen(before: map<string, Mirror>, g: Given, pulls: map<string, History>, p: string)
    : map<string, Entry>
  {
    if p in g.online && p in pulls && IsCompletePull(pulls[p]) then Offered(ServedLast(pulls[p]))
    else Contents(MirrorOf(before, p))
  }

  ghost function SeenRows(before: map<string, Mirror>, g: Given, pulls: map<string, History>): map<OfferKey, Entry> {
    var keys := set p, id | p in g.known && id in Seen(before, g, pulls, p) :: OfferKey(p, id);
    map k | k in keys :: Seen(before, g, pulls, k.peer)[k.id]
  }

  lemma MirrorIsSeen(s: Stored, g: Given, strmDir: string, s': Stored, pulls: map<string, History>, p: string)
    requires Synced(s, g, strmDir, s') && Honest(s.mirrors, g, pulls) && p in g.known
    ensures Contents(MirrorOf(s'.mirrors, p)) == Seen(s.mirrors, g, pulls, p)
    ensures p in g.online ==> PullFrom(s.mirrors, g.answers, p).status == Status.Done
  {
    if p in g.online {
      PullDownloads(pulls[p]);
    }
  }

  /** After a sync over honest feeds every pull has completed, and the election reads exactly what was seen. */
  lemma SyncSees(s: Stored, g: Given, strmDir: string, s': Stored, pulls: map<string, History>)
    requires Synced(s, g, strmDir, s') && Honest(s.mirrors, g, pulls) && g.Offering() <= g.known
    ensures AllRows(s'.mirrors) == SeenRows(s.mirrors, g, pulls)
    ensures Failing(s.mirrors, g.online, g.answers, g.unmarked) == g.online * g.unmarked
  {
    var seen := SeenRows(s.mirrors, g, pulls);
    forall p, id ensures Get(AllRows(s'.mirrors), OfferKey(p, id)) == Get(seen, OfferKey(p, id)) {
      AllRowsAt(s'.mirrors, p, id);
      if p in g.known {
        MirrorIsSeen(s, g, strmDir, s', pulls, p);
      }
    }
    forall k ensures Get(AllRows(s'.mirrors), k) == Get(seen, k) {
      assert k == OfferKey(k.peer, k.id);
    }
    SameMap(AllRows(s'.mirrors), seen);
    forall p | p in g.online ensures PullFrom(s.mirrors, g.answers, p).status == Status.Done {
      MirrorIsSeen(s, g, strmDir, s', pulls, p);
    }
  }

  // ---------------------------------------------------------- nothing new

  /** The inputs bring nothing new: no peer removed, the same library, and pulls that change no mirror. */
  ghost predicate Quiet(s: Stored, g: Given, strmDir: string) {
    && (forall p | p in s.mirrors :: p in g.known)
    && (Rereads(s, g) && g.listing.Some? ==>
          forall id :: Reflects(s.log.rows, RealItems(g.listing.value, strmDir), s.hides, id))
    && forall p | p in g.online :: Contents(PullFrom(s.mirrors, g.answers, p).m) == Contents(MirrorOf(s.mirrors, p))
  }

  lemma QuietRows(s: Stored, g: Given, strmDir: string, s': Stored)
    requires Quiet(s, g, strmDir) && Synced(s, g, strmDir, s')
    ensures AllRows(s'.mirrors) == AllRows(s.mirrors)
  {
    forall k ensures Get(AllRows(s'.mirrors), k) == Get(AllRows(s.mirrors), k) {
      AllRowsAt(s'.mirrors, k.peer, k.id);
      AllRowsAt(s.mirrors, k.peer, k.id);
      assert k == OfferKey(k.peer, k.id);
      assert k.peer in g.known ==> Contents(MirrorOf(s'.mirrors, k.peer)) == Contents(MirrorOf(s.mirrors, k.peer));
    }
    SameMap(AllRows(s'.mirrors), AllRows(s.mirrors));
  }

  lemma QuietLog(s: Stored, g: Given, strmDir: string, s': Stored)
    requires Wf(s.log) && Quiet(s, g, strmDir) && Synced(s, g, strmDir, s')
    ensures SameLive(s.log.rows, s'.log.rows)
  {
    if Rereads(s, g) {
      var current := RealItems(g.listing.value, strmDir);
      RefreshExact(s.log, current, s.hides, g.now, s'.log);
      forall id
        ensures Live(s.log.rows, id) == Live(s'.log.rows, id)
        ensures Live(s.log.rows, id) ==>
                  s.log.rows[id].entry == s'.log.rows[id].entry && s.log.rows[id].hidden == s'.log.rows[id].hidden
      {
        assert Reflects(s.log.rows, current, s.hides, id) && Reflects(s'.log.rows, current, s.hides, id);
      }
    }
  }

  lemma SameFolders(s: Stored, g: Given, strmDir: string, s': Stored, p: string)
    requires Synced(s, g, strmDir, s') && p in g.known
    ensures BallotOf(s, g, s').FoldersOf(p) == BallotOf(s, g, s).FoldersOf(p)
  {
    assert Get(s'.excluded, p) == Get(s.excluded, p);
  }

  /** A sync elects from what it left, also under the hides it kept. */
  lemma ElectedStays(s: Stored, g: Given, strmDir: string, s': Stored, desired: map<string, ItemState>)
    requires Synced(s, g, strmDir, s') && BallotOf(s, g, s').IsElection(desired)
    ensures BallotOf(s', g, s').IsElection(desired)
  {
    DroppedHidesChangeNothing(BallotOf(s, g, s'), desired);
  }

  /** Given nothing new, a sync elects what it elected before. */
  lemma QuietElects(s: Stored, g: Given, strmDir: string, s': Stored, desired: map<string, ItemState>)
    requires Wf(s.log) && g.Offering() <= g.known
    requires Quiet(s, g, strmDir) && Synced(s, g, strmDir, s') && BallotOf(s, g, s).IsElection(desired)
    ensures BallotOf(s, g, s').IsElection(desired)
  {
    QuietRows(s, g, strmDir, s');
    QuietLog(s, g, strmDir, s');
    forall p | p in g.Offering() ensures BallotOf(s, g, s').FoldersOf(p) == BallotOf(s, g, s).FoldersOf(p) {
      SameFolders(s, g, strmDir, s', p);
    }
    SameElection(BallotOf(s, g, s), BallotOf(s, g, s'), desired);
  }

  // ------------------------------------------------------ the same once more

  /** The same inputs once more, at another time and with other answers, which bring nothing the first did not. */
  ghost predicate Again(before: map<string, Mirror>, g: Given, g': Given) {
    && g' == g.(now := g'.now, answers := g'.answers, unmarked := g'.unmarked)
    && forall p | p in g.online ::
         var m := PullFrom(before, g.answers, p).m;
         Contents(Pulled(m, Load(m.cursor), AnswersOf(g'.answers, p)).m) == Contents(m)
  }

  /** Then a second sync is given nothing new, although the first pruned hides and collected tombstones. */
  lemma AgainIsQuiet(s: Stored, g: Given, strmDir: string, s': Stored, g': Given)
    requires Wf(s.log) && g.Offering() <= g.known && Synced(s, g, strmDir, s') && Again(s.mirrors, g, g')
    ensures Quiet(s', g', strmDir)
  {
    if Rereads(s', g') {
      var current := RealItems(g.listing.value, strmDir);
      RefreshExact(s.log, current, s.hides, g.now, s'.log);
      forall id ensures Reflects(s'.log.rows, current, s'.hides, id) {
        assert Reflects(s'.log.rows, current, s.hides, id);
        if id in current {
          assert HideKey(current[id]) in BallotOf(s, g, s').OfferedKeys();
        }
      }
    }
    forall p | p in g.online
      ensures Contents(PullFrom(s'.mirrors, g'.answers, p).m) == Contents(MirrorOf(s'.mirrors, p))
    {
      assert MirrorOf(s'.mirrors, p) == PullFrom(s.mirrors, g.answers, p).m;
    }
  }

  /** p answers both times with a complete pull, and offers the same. */
  ghost predicate SameOffer(before: map<string, Mirror>, g: Given, g': Given,
                            pulls: map<string, History>, pulls': map<string, History>, p: string) {
    && p in pulls && p in g.answers && HonestPull(MirrorOf(before, p), g.answers[p], pulls[p])
    && p in pulls' && p in g'.answers && HonestPull(PullFrom(before, g.answers, p).m, g'.answers[p], pulls'[p])
    && Offered(ServedLast(pulls'[p])) == Offered(ServedLast(pulls[p]))
  }

  /** Honest peers that offer the same when asked again bring nothing new. */
  lemma HonestAgain(before: map<string, Mirror>, g: Given, g': Given, pulls: map<string, History>,
                    pulls': map<string, History>)
    requires g' == g.(now := g'.now, answers := g'.answers, unmarked := g'.unmarked)
    requires forall p | p in g.online :: SameOffer(before, g, g', pulls, pulls', p)
    ensures Again(before, g, g')
  {
    forall p | p in g.online
      ensures var m := PullFrom(before, g.answers, p).m;
              Contents(Pulled(m, Load(m.cursor), AnswersOf(g'.answers, p)).m) == Contents(m)
    {
      assert SameOffer(before, g, g', pulls, pulls', p);
      PullDownloads(pulls[p]);
      PullDownloads(pulls'[p]);
    }
  }

  // ------------------------------------------------------------------ cycles

  /** All that one cycle can change. */
  datatype World = World(s: Stored, items: map<string, Item>, files: Files)

  ghost function Now(node: Node, lib: Library): World
    reads node, node.index, node.table, lib
  {
    World(node.State(), node.table.items, lib.files)
  }

  /** The disk after a reconcile without failures of a table written from desired; nothing is said if rows overrun. */
  ghost predicate Reconciled(cfg: Config, items: map<string, Item>, files: Files, files': Files,
                             desired: map<string, ItemState>) {
    !Overruns(cfg, Elected(items, desired)) ==>
      CleanDisk(cfg, Elected(items, desired), files, files') && ExactFiles(cfg, desired, files')
  }

  /** If the peers were honest, desired is elected from exactly what they offered when last asked. */
  ghost predicate ElectsOffers(s: Stored, g: Given, s': Stored, pulls: map<string, History>,
                               desired: map<string, ItemState>) {
    Honest(s.mirrors, g, pulls) ==>
      Ballot(s'.log.rows, SeenRows(s.mirrors, g, pulls), g.Offering(), s.hides, s'.excluded).IsElection(desired)
  }

  /** The sync half of a cycle: desired is elected from what the node then stores. */
  ghost predicate Began(s: Stored, g: Given, strmDir: string, s': Stored, pulls: map<string, History>,
                        desired: map<string, ItemState>) {
    && Synced(s, g, strmDir, s')
    && BallotOf(s, g, s').IsElection(desired)
    && ElectsOffers(s, g, s', pulls, desired)
  }

  /** What a clean cycle makes of w: desired is elected, written, reconciled and recorded. */
  ghost predicate Ran(w: World, g: Given, strmDir: string, cfg: Config, w': World, pulls: map<string, History>,
                      desired: map<string, ItemState>) {
    && Began(w.s, g, strmDir, w'.s, pulls, desired)
    && w'.items == Cycled(cfg, desired, w.items)
    && Reconciled(cfg, w.items, w.files, w'.files, desired)
  }

  lemma ElectionWritable(s: Stored, g: Given, s': Stored, desired: map<string, ItemState>)
    requires BallotOf(s, g, s').IsElection(desired) && "" !in g.Offering()
    ensures NamesPeers(desired)
  {
    ElectionNamesPeers(BallotOf(s, g, s'), desired);
  }

  /**
    After a clean cycle exactly the rows of playable items that are elected to a peer and not hidden record
    a file; unless rows overran each other, the redirects on the disk are exactly these, for these.
   */
  lemma RanShows(w: World, g: Given, strmDir: string, cfg: Config, w': World, pulls: map<string, History>,
                 desired: map<string, ItemState>)
    requires Ran(w, g, strmDir, cfg, w', pulls, desired) && "" !in g.online && "" !in g.recent
    ensures RecordsByState(cfg, w'.items)
    ensures Overruns(cfg, Elected(w.items, desired)) || FilesByRecord(cfg, w'.items, w'.files)
  {
    ElectionWritable(w.s, g, w'.s, desired);
    CleanRecords(cfg, Elected(w.items, desired));
    if !Overruns(cfg, Elected(w.items, desired)) {
      CycledByRecord(cfg, desired, w.items, w'.files);
    }
  }

  lemma HalvesRan(w: World, g: Given, strmDir: string, cfg: Config, w': World, pulls: map<string, History>,
                  desired: map<string, ItemState>)
    requires Began(w.s, g, strmDir, w'.s, pulls, desired) && w'.items == Cycled(cfg, desired, w.items)
    requires Reconciled(cfg, w.items, w.files, w'.files, desired)
    ensures Ran(w, g, strmDir, cfg, w', pulls, desired)
  {
  }

  /** The first half of a cycle. */
  method Begin(node: Node, g: Given, ghost pulls: map<string, History>)
    returns (ok: bool, ghost desired: map<string, ItemState>)
    requires node.Valid() && g.Offering() <= g.known && "" !in g.Offering()
    modifies node`mirrors, node`excluded, node.index`log, node.index`indexedAt, node.index`hides, node.table
    ensures node.Valid()
    ensures !ok || Began(old(node.State()), g, node.index.strmDir, node.State(), pulls, desired)
    ensures ok ==> NamesPeers(desired) && node.table.items == Elected(old(node.table.items), desired)
  {
    ghost var s, items := node.State(), node.table.items;
    desired := map[];
    var refreshes: bool, commits: bool := *, *;
    var failed;
    ok, failed := node.Sync(g, refreshes, commits);
    if ok {
      desired :| BallotOf(s, g, node.State()).IsElection(desired) && node.table.items == Elected(items, desired);
      ElectionWritable(s, g, node.State(), desired);
      if Honest(s.mirrors, g, pulls) {
        SyncSees(s, g, node.index.strmDir, node.State(), pulls);
      }
    }
  }

  /** The second half of a cycle. */
  method Finish(lib: Library, ghost items: map<string, Item>, ghost desired: map<string, ItemState>)
    returns (clean: bool)
    requires NamesPeers(desired) && lib.table.items == Elected(items, desired)
    modifies lib`files, lib.table`items
    ensures clean ==> lib.table.items == Cycled(lib.cfg, desired, items)
    ensures !clean || Reconciled(lib.cfg, items, old(lib.files), lib.files, desired)
  {
    var o, failed;
    ghost var tr;
    o, failed, tr := lib.Reconcile();
    clean := o == Outcome.Done && failed == 0;
    if clean && !Overruns(lib.cfg, Elected(items, desired)) {
      ElectedDisk(lib.cfg, desired, items, old(lib.files), lib.files);
    }
  }

  /**
    One cycle, clean if nothing in it failed. If no row overran another, the .strm files
    under movies/ and series/ are then exactly those of the elected items; and if the peers
    were honest, these are elected from exactly what they offered when last asked.
   */
  method RunLocal(node: Node, lib: Library, g: Given, ghost pulls: map<string, History>)
    returns (clean: bool, ghost desired: map<string, ItemState>)
    requires node.Valid() && lib.table == node.table && g.Offering() <= g.known && "" !in g.Offering()
    modifies node`mirrors, node`excluded, node.index`log, node.index`indexedAt, node.index`hides, node.table, lib`files
    ensures node.Valid()
    ensures !clean || Ran(old(Now(node, lib)), g, node.index.strmDir, lib.cfg, Now(node, lib), pulls, desired)
  {
    ghost var w := Now(node, lib);
    clean, desired := Begin(node, g, pulls);
    if clean {
      ghost var s := node.State();
      clean := Finish(lib, w.items, desired);
      if clean {
        assert node.State() == s;
        HalvesRan(w, g, node.index.strmDir, lib.cfg, Now(node, lib), pulls, desired);
      }
    }
  }

  // --------------------------------------------------------- cycles settle

  /** The table and the files are those of the election of what the node stores. */
  ghost predicate AtRest(w: World, g: Given, cfg: Config, desired: map<string, ItemState>) {
    && BallotOf(w.s, g, w.s).IsElection(desired)
    && w.items == SettledTable(cfg, desired)
    && ExactFiles(cfg, desired, w.files)
  }

  /** Given nothing new, what a sync elects is the election there was, and remains it. */
  lemma SameAgain(s: Stored, g: Given, strmDir: string, s': Stored, before: map<string, ItemState>,
                  desired: map<string, ItemState>)
    requires Wf(s.log) && g.Offering() <= g.known && Quiet(s, g, strmDir) && Synced(s, g, strmDir, s')
    requires BallotOf(s, g, s).IsElection(before) && BallotOf(s, g, s').IsElection(desired)
    ensures desired == before && BallotOf(s', g, s').IsElection(desired)
  {
    QuietElects(s, g, strmDir, s', before);
    ElectionUnique(BallotOf(s, g, s'), before, desired);
    ElectedStays(s, g, strmDir, s', desired);
  }

  /** Two clean cycles on the same inputs, at any two times, rest on any table and any disk. */
  lemma TwoRunsRest(w: World, g: Given, strmDir: string, cfg: Config, w1: World, first: map<string, ItemState>,
                    g': Given, w2: World, second: map<string, ItemState>)
    requires Wf(w.s.log) && Wf(w1.s.log) && g.Offering() <= g.known && "" !in g.Offering()
    requires Ran(w, g, strmDir, cfg, w1, map[], first)
    requires Again(w.s.mirrors, g, g') && Ran(w1, g', strmDir, cfg, w2, map[], second)
    ensures AtRest(w2, g', cfg, second)
  {
    AgainIsQuiet(w.s, g, strmDir, w1.s, g');
    ElectedStays(w.s, g, strmDir, w1.s, first);
    ElectionWritable(w.s, g, w1.s, first);
    SameAgain(w1.s, g', strmDir, w2.s, first, second);
    TwoCyclesSettle(cfg, first, w.items);
    SecondCycleNeverOverruns(cfg, first, w.items);
  }

  /** Nothing that is at rest moves in a clean cycle that is given nothing new. */
  lemma RestStays(w: World, g: Given, strmDir: string, cfg: Config, w': World, desired: map<string, ItemState>,
                  now: map<string, ItemState>)
    requires Wf(w.s.log) && g.Offering() <= g.known && "" !in g.Offering()
    requires AtRest(w, g, cfg, desired) && Quiet(w.s, g, strmDir) && Ran(w, g, strmDir, cfg, w', map[], now)
    ensures w'.items == w.items && w'.files == w.files && AtRest(w', g, cfg, desired)
  {
    ElectionWritable(w.s, g, w'.s, now);
    SameAgain(w.s, g, strmDir, w'.s, desired, now);
    SettledIsFixed(cfg, desired);
    SettledNeverOverruns(cfg, desired);
    SettledDiskIsFixed(cfg, desired, w.files, w'.files);
  }

  /**
    With unchanged inputs, two clean cycles settle any table and any disk, also one on which rows
    overrun each other.
   */
  method Settle(node: Node, lib: Library, g: Given, g': Given)
    returns (clean: bool, ghost desired: map<string, ItemState>)
    requires node.Valid() && lib.table == node.table && g.Offering() <= g.known && "" !in g.Offering()
    requires Again(node.mirrors, g, g')
    modifies node`mirrors, node`excluded, node.index`log, node.index`indexedAt, node.index`hides, node.table, lib`files
    ensures node.Valid()
    ensures !clean || AtRest(Now(node, lib), g', lib.cfg, desired)
    ensures !clean || (RecordsByState(lib.cfg, lib.table.items) && FilesByRecord(lib.cfg, lib.table.items, lib.files))
  {
    ghost var w, strmDir := Now(node, lib), node.index.strmDir;
    clean, desired := RunLocal(node, lib, g, map[]);
    if clean {
      ghost var w1, first := Now(node, lib), desired;
      clean, desired := RunLocal(node, lib, g', map[]);
      if clean {
        TwoRunsRest(w, g, strmDir, lib.cfg, w1, first, g', Now(node, lib), desired);
        SettledRecords(lib.cfg, desired);
        ExactByRecord(lib.cfg, desired, lib.files);
      }
    }
  }

  /** From there a clean cycle that is given nothing new changes no row and no file. */
  method RepeatCycle(node: Node, lib: Library, g: Given, ghost desired: map<string, ItemState>) returns (clean: bool)
    requires node.Valid() && lib.table == node.table && g.Offering() <= g.known && "" !in g.Offering()
    requires AtRest(Now(node, lib), g, lib.cfg, desired) && Quiet(node.State(), g, node.index.strmDir)
    modifies node`mirrors, node`excluded, node.index`log, node.index`indexedAt, node.index`hides, node.table, lib`files
    ensures node.Valid()
    ensures !clean || (lib.table.items == old(lib.table.items) && lib.files == old(lib.files))
    ensures !clean || AtRest(Now(node, lib), g, lib.cfg, desired)
  {
    ghost var w, now := Now(node, lib), desired;
    clean, now := RunLocal(node, lib, g, map[]);
    if clean {
      RestStays(w, g, node.index.strmDir, lib.cfg, Now(node, lib), desired, now);
    }
  }
}
