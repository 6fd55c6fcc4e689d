/**
  The change feed as a protocol between one provider and one consumer: refreshes,
  hides, tombstone collection and epoch replacement interleave with page fetches
  and commits, crashes and resync requests, and a page is committed some time
  after it was fetched. The incremental feed refines downloading Offered.
 */
module Replication {
  import opened Wrappers
  import opened Entries
  import opened Feed
  import opened Mirror

  // -------------------------------------------------- one page, row by row

  /** The mirror row a feed row turns into under generation gen. */
  function Mirrored(r: Row, gen: int): Option<MirrorRow> {
    if Visible(r) then Some(MirrorRow(r.entry, gen)) else None
  }

  predicate Mentions(changes: seq<Change>, id: string) {
    exists i :: 0 <= i < |changes| && changes[i].globalID == id
  }

  /** What applying honest changes does to the row of id. */
  lemma {:induction false} UpsertsAt(l: Log, changes: seq<Change>, rows: map<string, MirrorRow>, gen: int, id: string)
    requires Wf(l)
    requires forall i | 0 <= i < |changes| ::
               changes[i].globalID in l.rows && changes[i] == ChangeOf(changes[i].globalID, l.rows[changes[i].globalID])
    ensures Mentions(changes, id) ==> id in l.rows
    ensures Get(Upserts(rows, changes, gen), id) ==
            if Mentions(changes, id) then Mirrored(l.rows[id], gen) else Get(rows, id)
  {
    if changes != [] {
      var n := |changes| - 1;
      UpsertsAt(l, changes[..n], rows, gen, id);
      var c := changes[n];
      assert RowOk(l, c.globalID);
      MentionsLast(changes, id);
    }
  }

  /** What applying a whole honest page does to the row of id. */
  lemma PageAt(l: Log, from: int, page: Page, rows: map<string, MirrorRow>, gen: int, id: string)
    requires Wf(l) && Holds(l, from, page)
    ensures Get(Upserts(rows, page.changes, gen), id) ==
            if InPage(l, from, page.next, id) then Mirrored(l.rows[id], gen) else Get(rows, id)
  {
    UpsertsAt(l, page.changes, rows, gen, id);
  }

  // ---------------------------------------------------------- the invariant

  /** During a resync only rows of the current generation count as mirrored. */
  predicate Counts(c: Cursor, rows: map<string, MirrorRow>, id: string) {
    id in rows && (c.resync ==> rows[id].gen == c.gen)
  }

  /** The mirror says about id what the provider offers. */
  predicate Agrees(l: Log, c: Cursor, rows: map<string, MirrorRow>, id: string) {
    if Offers(l, id) then Counts(c, rows, id) && rows[id].entry == l.rows[id].entry
    else !Counts(c, rows, id)
  }

  /**
    Nothing about id is lost: its row is still ahead of the cursor, or the mirror
    agrees, or its tombstone was collected past a cursor the provider rejects.
   */
  ghost predicate Tracks(l: Log, c: Cursor, rows: map<string, MirrorRow>, id: string) {
    || (id in l.rows && l.rows[id].rev > c.rev)
    || Agrees(l, c, rows, id)
    || (id !in l.rows && 0 < c.rev < l.minRev)
  }

  ghost predicate GensUpTo(rows: map<string, MirrorRow>, gen: int) {
    forall id | id in rows :: rows[id].gen <= gen
  }

  /** The mirror follows the history of l at cursor c. */
  ghost predicate InStep(l: Log, c: Cursor, rows: map<string, MirrorRow>) {
    && 0 <= c.rev <= l.head
    && GensUpTo(rows, c.gen)
    && (c.rev == 0 ==> !c.resync && rows == map[])
    && forall id :: Tracks(l, c, rows, id)
  }

  /** A mirror in step with a history stays in step as the history goes on. */
  lemma InStepEvolves(s: Log, l: Log, c: Cursor, rows: map<string, MirrorRow>)
    requires Wf(s) && Wf(l) && Evolves(s, l) && InStep(s, c, rows)
    ensures InStep(l, c, rows)
  {
    forall id ensures Tracks(l, c, rows, id) {
      assert RowEvolves(s, l, id) && Tracks(s, c, rows, id);
    }
  }

  /** Applying a delta page keeps every id tracked, at the page's next cursor. */
  lemma DeltaTracks(l: Log, cur: Cursor, rows: map<string, MirrorRow>, page: Page, id: string)
    requires Wf(l) && InStep(l, cur, rows) && Holds(l, cur.rev, page) && cur.rev <= page.next
    requires cur.rev == 0 || l.minRev <= cur.rev
    ensures var r := Upserts(rows, page.changes, cur.gen);
            Tracks(l, cur.(rev := page.next), r, id) && (id in r ==> r[id].gen <= cur.gen)
  {
    PageAt(l, cur.rev, page, rows, cur.gen, id);
    assert Tracks(l, cur, rows, id);
    assert id in l.rows ==> RowOk(l, id);
  }

  /** Applying a page from scratch under a new generation makes every id tracked, whatever was there before. */
  lemma ScratchTracks(l: Log, c: Cursor, rows: map<string, MirrorRow>, page: Page, id: string)
    requires Wf(l) && c.resync && Holds(l, 0, page) && c.rev == page.next
    requires id in rows ==> rows[id].gen < c.gen
    ensures var r := Upserts(rows, page.changes, c.gen);
            Tracks(l, c, r, id) && (id in r ==> r[id].gen <= c.gen)
  {
    PageAt(l, 0, page, rows, c.gen, id);
    assert id in l.rows ==> RowOk(l, id);
  }

  lemma AllScratchTrack(l: Log, c: Cursor, rows: map<string, MirrorRow>, page: Page)
    requires Wf(l) && c.resync && Holds(l, 0, page) && c.rev == page.next && GensUpTo(rows, c.gen - 1)
    ensures forall id :: Tracks(l, c, Upserts(rows, page.changes, c.gen), id)
    ensures GensUpTo(Upserts(rows, page.changes, c.gen), c.gen)
  {
    var r := Upserts(rows, page.changes, c.gen);
    forall id ensures Tracks(l, c, r, id) && (id in r ==> r[id].gen <= c.gen) {
      ScratchTracks(l, c, rows, page, id);
    }
  }

  /** One committed page of a usable cursor keeps the mirror in step; the last one makes it equal to the offer. */
  lemma DeltaInStep(l: Log, cur: Cursor, m: Mirror, limit: nat)
    requires Wf(l) && limit > 0 && !Unusable(l, cur.epoch, cur.rev) && InStep(l, cur, m.rows)
    ensures var page := PageOf(l, cur.epoch, cur.rev, limit);
            var t := Committed(m, cur, page);
            && InStep(l, t.cursor, t.rows)
            && (!page.more ==> Contents(t) == Offered(l))
  {
    var page := PageOf(l, cur.epoch, cur.rev, limit);
    PageExact(l, cur.epoch, cur.rev, limit);
    var r := Upserts(m.rows, page.changes, cur.gen);
    var c := cur.(rev := page.next);
    forall id ensures Tracks(l, c, r, id) && (id in r ==> r[id].gen <= cur.gen) {
      DeltaTracks(l, cur, m.rows, page, id);
    }
    Concluded(l, c, r, page.more, Committed(m, cur, page));
  }

  /** One committed page that restarts the feed puts the mirror in step, whatever it held before. */
  lemma ResetInStep(l: Log, cur: Cursor, m: Mirror, limit: nat)
    requires Wf(l) && limit > 0 && Unusable(l, cur.epoch, cur.rev) && GensUpTo(m.rows, cur.gen)
    ensures var page := PageOf(l, cur.epoch, cur.rev, limit);
            var t := Committed(m, cur, page);
            && InStep(l, t.cursor, t.rows)
            && (!page.more ==> Contents(t) == Offered(l))
  {
    var page := PageOf(l, cur.epoch, cur.rev, limit);
    PageExact(l, cur.epoch, cur.rev, limit);
    var r := Upserts(m.rows, page.changes, cur.gen + 1);
    var c := Reset(cur, page).(rev := page.next);
    AllScratchTrack(l, c, m.rows, page);
    Concluded(l, c, r, page.more, Committed(m, cur, page));
  }

  /** The end of a page: unless more is to come, a resync is swept, and the mirror equals the offer. */
  lemma Concluded(l: Log, c: Cursor, rows: map<string, MirrorRow>, more: bool, t: Mirror)
    requires Wf(l) && 0 <= c.rev <= l.head && GensUpTo(rows, c.gen)
    requires forall id :: Tracks(l, c, rows, id)
    requires if more then c.rev > 0 else c.rev == l.head
    requires t.cursor.rev == c.rev && t.cursor.gen == c.gen && t.cursor.resync == (more && c.resync)
    requires t.rows == if !more && c.resync then Swept(rows, c.gen) else rows
    ensures InStep(l, t.cursor, t.rows)
    ensures !more ==> Contents(t) == Offered(l)
  {
    if more {
      assert forall id :: Tracks(l, c, rows, id) ==> Tracks(l, t.cursor, t.rows, id);
    } else {
      forall id ensures Agrees(l, t.cursor, t.rows, id) {
        assert Tracks(l, c, rows, id);
        assert id in l.rows ==> RowOk(l, id);
      }
      AgreeingIsOffered(l, t);
      forall id | id in t.rows ensures l.head > 0 {
        assert id in Contents(t) && RowOk(l, id);
      }
    }
  }

  /** A mirror that agrees on every id holds exactly the offer. */
  lemma AgreeingIsOffered(l: Log, t: Mirror)
    requires !t.cursor.resync && forall id :: Agrees(l, t.cursor, t.rows, id)
    ensures Contents(t) == Offered(l)
  {
    forall id
      ensures id in Contents(t) <==> id in Offered(l)
      ensures id in Offered(l) ==> Contents(t)[id] == Offered(l)[id]
    {
      assert Agrees(l, t.cursor, t.rows, id);
    }
  }

  // ------------------------------------------------------------- the system

  /** Where the consumer's pull is. A fetched page remembers the log it was served from. */
  datatype Phase =
    | Idle
    | Ready(cur: Cursor)
    | Fetched(cur: Cursor, page: Page, snap: Log)
    | Listed(cur: Cursor, entries: seq<Entry>, snap: Log)

  /** The provider's log and every epoch used so far; the consumer's mirror and its pull. */
  datatype Sys = Sys(log: Log, epochs: set<string>, m: Mirror, phase: Phase)

  datatype Event =
    | Refresh(current: map<string, Entry>, hides: set<string>, now: int, to: Log) // the provider re-reads its library
    | Recreate(epoch: string)          // the provider's database is recreated
    | Start                            // a pull loads the cursor
    | Fetch(limit: nat)                // one page is served
    | FetchLegacy(entries: seq<Entry>) // the whole catalog is served
    | Commit                           // what was fetched is written
    | Abort                            // a request or transaction fails, or the process dies
    | Request                          // the user asks for a resync
    | Prune                            // the peer is removed between pulls

  /** entries lists exactly what l offers. */
  ghost predicate ListsOffer(entries: seq<Entry>, l: Log) {
    && (forall i | 0 <= i < |entries| ::
          entries[i].globalID in Offered(l) && Offered(l)[entries[i].globalID] == entries[i])
    && (forall id | id in Offered(l) :: exists i :: 0 <= i < |entries| && entries[i].globalID == id)
  }

  function Landed(s: Sys, p: Pull): Sys {
    s.(m := p.m, phase := if p.status == Running then Ready(p.cur) else Idle)
  }

  ghost predicate Next(s: Sys, e: Event, t: Sys) {
    match e
    case Refresh(current, hides, now, to) =>
      Keyed(current) && Refreshed(s.log, current, hides, now, to) && t == s.(log := to)
    case Recreate(epoch) =>
      epoch != "" && epoch !in s.epochs && t == s.(log := Log(epoch, 0, 0, map[]), epochs := s.epochs + {epoch})
    case Start =>
      s.phase.Idle? && t == s.(phase := Ready(Load(s.m.cursor)))
    case Fetch(limit) =>
      s.phase.Ready? && limit > 0 &&
      t == s.(phase := Fetched(s.phase.cur, PageOf(s.log, s.phase.cur.epoch, s.phase.cur.rev, limit), s.log))
    case FetchLegacy(entries) =>
      s.phase.Ready? && ListsOffer(entries, s.log) && t == s.(phase := Listed(s.phase.cur, entries, s.log))
    case Commit =>
      match s.phase {
        case Fetched(cur, page, _) => t == Landed(s, OnAnswer(s.m, cur, Served(page, true)))
        case Listed(cur, entries, _) => t == Landed(s, OnAnswer(s.m, cur, NoFeed(Some(entries), true)))
        case _ => false
      }
    case Abort => t == s.(phase := Idle)
    case Request => t == s.(m := Requested(s.m))
    case Prune => s.phase.Idle? && t == s.(m := Mirror(Blank, map[]))
  }

  /** A pull's cursor is the stored one, blanked if the pull loaded a resync request. */
  ghost predicate Loaded(s: Sys, cur: Cursor) {
    if cur.requested then s.m.cursor.requested && cur == Load(s.m.cursor)
    else cur == s.m.cursor.(requested := false)
  }

  /** The log a page was served from is a past state of the log, unless that was replaced since. */
  ghost predicate Past(s: Sys, snap: Log) {
    Wf(snap) && snap.epoch in s.epochs && (snap.epoch == s.log.epoch ==> Evolves(snap, s.log))
  }

  /** The part of the invariant that does not depend on what the mirror holds. */
  ghost predicate Sound(s: Sys) {
    && Wf(s.log) && s.log.epoch in s.epochs && "" !in s.epochs
    && s.m.cursor.epoch in s.epochs + {""}
    && GensUpTo(s.m.rows, s.m.cursor.gen)
    && match s.phase {
         case Idle => true
         case Ready(cur) => Loaded(s, cur)
         case Fetched(cur, page, snap) =>
           Loaded(s, cur) && Past(s, snap) &&
           exists limit: nat :: limit > 0 && page == PageOf(snap, cur.epoch, cur.rev, limit)
         case Listed(cur, entries, snap) =>
           Loaded(s, cur) && Past(s, snap) && ListsOffer(entries, snap)
       }
  }

  /** The mirror is in step with the log, and with the log a fetched page was served from. */
  ghost predicate Aligned(s: Sys) {
    && (s.m.cursor.epoch == s.log.epoch ==> InStep(s.log, s.m.cursor, s.m.rows))
    && (s.phase.Fetched? && s.phase.cur.epoch == s.phase.snap.epoch ==> InStep(s.phase.snap, s.phase.cur, s.m.rows))
  }

  ghost predicate Inv(s: Sys) {
    Sound(s) && Aligned(s)
  }

  /** A node that has just added a peer whose feed has some history. */
  ghost predicate Init(s: Sys) {
    && Wf(s.log) && s.log.epoch in s.epochs && "" !in s.epochs
    && s.m == Mirror(Blank, map[]) && s.phase == Idle
  }

  lemma InitInv(s: Sys)
    requires Init(s)
    ensures Inv(s)
  {
  }

  lemma RefreshKeeps(s: Sys, e: Event, t: Sys)
    requires Sound(s) && e.Refresh? && Next(s, e, t)
    ensures Sound(t) && (Aligned(s) ==> Aligned(t))
  {
    RefreshEvolves(s.log, e.current, e.hides, e.now, e.to);
    if (s.phase.Fetched? || s.phase.Listed?) && s.phase.snap.epoch == s.log.epoch {
      EvolvesTransitive(s.phase.snap, s.log, t.log);
    }
    if Aligned(s) && s.m.cursor.epoch == s.log.epoch {
      InStepEvolves(s.log, t.log, s.m.cursor, s.m.rows);
    }
  }

  lemma RecreateKeeps(s: Sys, e: Event, t: Sys)
    requires Sound(s) && e.Recreate? && Next(s, e, t)
    ensures Sound(t) && (Aligned(s) ==> Aligned(t))
  {
  }

  lemma FetchKeeps(s: Sys, e: Event, t: Sys)
    requires Sound(s) && (e.Fetch? || e.FetchLegacy?) && Next(s, e, t)
    ensures Sound(t) && (Aligned(s) ==> Aligned(t))
  {
    forall id ensures RowEvolves(s.log, s.log, id) {
    }
    if e.Fetch? {
      var cur := s.phase.cur;
      assert t.phase.page == PageOf(s.log, cur.epoch, cur.rev, e.limit);
      if Aligned(s) && cur.epoch == s.log.epoch {
        assert !cur.requested;
        assert forall id :: Tracks(s.log, s.m.cursor, s.m.rows, id) ==> Tracks(s.log, cur, s.m.rows, id);
      }
    }
  }

  /** The committed cursor and mirror after an honest page: in step with the log it was served from. */
  lemma PageCommitted(s: Sys, t: Sys)
    requires Sound(s) && s.phase.Fetched? && Next(s, Commit, t)
    requires Aligned(s) || s.phase.cur.requested
    ensures var page, snap := s.phase.page, s.phase.snap;
            && !Stalls(s.phase.cur, page)
            && t.m == Committed(s.m, s.phase.cur, page)
            && t.m.cursor.epoch == snap.epoch
            && InStep(snap, t.m.cursor, t.m.rows)
            && (!page.more ==> Contents(t.m) == Offered(snap))
  {
    var cur, page, snap := s.phase.cur, s.phase.page, s.phase.snap;
    var limit: nat :| limit > 0 && page == PageOf(snap, cur.epoch, cur.rev, limit);
    PageExact(snap, cur.epoch, cur.rev, limit);
    if page.reset {
      ResetInStep(snap, cur, s.m, limit);
    } else {
      DeltaInStep(snap, cur, s.m, limit);
    }
  }

  lemma LegacyLands(s: Sys, t: Sys)
    requires s.phase.Listed? && Next(s, Commit, t)
    ensures t.m == CommittedLegacy(s.m, s.phase.cur, s.phase.entries)
  {
  }

  lemma LegacyCommitted(s: Sys, t: Sys)
    requires Sound(s) && s.phase.Listed? && Next(s, Commit, t)
    ensures t.m.cursor == Cursor("", 0, s.phase.cur.gen + 1, false, s.m.cursor.requested && !s.phase.cur.requested)
    ensures Contents(t.m) == Offered(s.phase.snap)
    ensures GensUpTo(t.m.rows, t.m.cursor.gen)
  {
    LegacyLands(s, t);
    LegacyRows(s.phase.entries, s.phase.snap, s.m.rows, s.phase.cur.gen + 1);
    OfferKept(s.phase.snap, s.phase.cur.gen + 1, t.m);
  }

  lemma OfferKept(snap: Log, gen: int, m: Mirror)
    requires m.rows == map id | id in Offered(snap) :: MirrorRow(Offered(snap)[id], gen)
    ensures Contents(m) == Offered(snap) && GensUpTo(m.rows, gen)
  {
  }

  /** A whole legacy listing replaces the mirror: the offer, under the new generation. */
  lemma LegacyRows(entries: seq<Entry>, snap: Log, rows: map<string, MirrorRow>, gen: int)
    requires ListsOffer(entries, snap) && GensUpTo(rows, gen - 1)
    ensures Swept(Upserts(rows, AsChanges(entries), gen), gen) ==
            map id | id in Offered(snap) :: MirrorRow(Offered(snap)[id], gen)
  {
    var changes := AsChanges(entries);
    var r := Upserts(rows, changes, gen);
    forall id
      ensures Get(r, id) == if id in Offered(snap) then Some(MirrorRow(Offered(snap)[id], gen)) else Get(rows, id)
    {
      LegacyAt(changes, snap, rows, gen, id);
      if id in Offered(snap) {
        var i :| 0 <= i < |entries| && entries[i].globalID == id;
        assert changes[i].globalID == id;
      }
    }
    SweptOffer(snap, rows, r, gen);
  }

  lemma SweptOffer(snap: Log, rows: map<string, MirrorRow>, r: map<string, MirrorRow>, gen: int)
    requires GensUpTo(rows, gen - 1)
    requires forall id ::
               Get(r, id) == if id in Offered(snap) then Some(MirrorRow(Offered(snap)[id], gen)) else Get(rows, id)
    ensures Swept(r, gen) == map id | id in Offered(snap) :: MirrorRow(Offered(snap)[id], gen)
  {
    forall id
      ensures id in Swept(r, gen) <==> id in Offered(snap)
      ensures id in Offered(snap) ==> Swept(r, gen)[id] == MirrorRow(Offered(snap)[id], gen)
    {
      assert Get(r, id) == if id in Offered(snap) then Some(MirrorRow(Offered(snap)[id], gen)) else Get(rows, id);
    }
  }

  /** What a legacy listing leaves in the row of id. */
  lemma {:induction false} LegacyAt(changes: seq<Change>, snap: Log, rows: map<string, MirrorRow>, gen: int, id: string)
    requires forall i | 0 <= i < |changes| :: changes[i].globalID in Offered(snap)
    requires forall i | 0 <= i < |changes| ::
               changes[i].entry == Some(Offered(snap)[changes[i].globalID]) && !changes[i].deleted
    requires forall i | 0 <= i < |changes| :: changes[i].entry.value.globalID == changes[i].globalID
    ensures Mentions(changes, id) ==> id in Offered(snap)
    ensures Get(Upserts(rows, changes, gen), id) ==
            if Mentions(changes, id) then Some(MirrorRow(Offered(snap)[id], gen)) else Get(rows, id)
  {
    if changes != [] {
      var n := |changes| - 1;
      LegacyAt(changes[..n], snap, rows, gen, id);
      MentionsLast(changes, id);
    }
  }

  lemma MentionsLast(changes: seq<Change>, id: string)
    requires changes != []
    ensures var n := |changes| - 1;
            Mentions(changes, id) <==> Mentions(changes[..n], id) || changes[n].globalID == id
  {
    var n := |changes| - 1;
    if i :| 0 <= i < n && changes[i].globalID == id {
      assert changes[..n][i].globalID == id;
    }
    if i :| 0 <= i < n && changes[..n][i].globalID == id {
      assert changes[i].globalID == id;
    }
  }

  lemma CommitKeeps(s: Sys, t: Sys)
    requires Sound(s) && Next(s, Commit, t)
    requires Aligned(s) || (!s.phase.Idle? && s.phase.cur.requested)
    ensures Inv(t)
  {
    if s.phase.Fetched? {
      PageCommitted(s, t);
      var snap := s.phase.snap;
      if snap.epoch == s.log.epoch {
        InStepEvolves(snap, s.log, t.m.cursor, t.m.rows);
      }
    } else {
      LegacyCommitted(s, t);
    }
  }

  /** Every step keeps the mirror in step with the provider. */
  lemma StepKeeps(s: Sys, e: Event, t: Sys)
    requires Inv(s) && Next(s, e, t)
    ensures Inv(t)
  {
    match e
    case Refresh(_, _, _, _) => RefreshKeeps(s, e, t);
    case Recreate(_) => RecreateKeeps(s, e, t);
    case Fetch(_) => FetchKeeps(s, e, t);
    case FetchLegacy(_) => FetchKeeps(s, e, t);
    case Commit => CommitKeeps(s, t);
    case Request =>
      assert forall id :: Tracks(s.log, s.m.cursor, s.m.rows, id) ==> Tracks(s.log, t.m.cursor, t.m.rows, id);
    case _ =>
  }
}
