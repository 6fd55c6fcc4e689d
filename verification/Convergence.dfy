/**
  What the replication protocol guarantees, step by step and over whole runs:
  completed pulls make the mirror equal to the offer, no removal is missed, no
  offered item vanishes, and a requested resync repairs any mirror.
 */
module Convergence {
  import opened Feed
  import opened Mirror
  import opened Replication

  /** The step commits the last page of a pull, or a whole legacy catalog. */
  predicate Completes(s: Sys, e: Event) {
    e.Commit? && ((s.phase.Fetched? && !s.phase.page.more) || s.phase.Listed?)
  }

  /** A completed pull makes the mirror exactly what was offered when its last page was served. */
  lemma CompletedPullRefinesDownload(s: Sys, t: Sys)
    requires Inv(s) && Next(s, Commit, t) && Completes(s, Commit)
    ensures Contents(t.m) == Offered(s.phase.snap) && t.phase.Idle?
  {
    if s.phase.Fetched? {
      PageCommitted(s, t);
    } else {
      LegacyCommitted(s, t);
    }
  }

  /** An honest feed always advances: the progress check of a pull never fires. */
  lemma HonestFeedNeverStalls(s: Sys)
    requires Inv(s) && s.phase.Fetched?
    ensures !Stalls(s.phase.cur, s.phase.page)
  {
    var cur, page, snap := s.phase.cur, s.phase.page, s.phase.snap;
    var limit: nat :| limit > 0 && page == PageOf(snap, cur.epoch, cur.rev, limit);
    PageExact(snap, cur.epoch, cur.rev, limit);
  }

  /**
    A delta misses nothing: from any stored cursor the provider accepts, every id
    the mirror has wrong is still ahead in the feed. That includes a cursor equal to
    min rev, and a cursor at rev 0, whose mirror is empty.
   */
  lemma DeltaMissesNothing(s: Sys, id: string)
    requires Inv(s)
    requires !Unusable(s.log, s.m.cursor.epoch, s.m.cursor.rev)
    requires !Agrees(s.log, s.m.cursor, s.m.rows, id)
    ensures id in s.log.rows && Follows(s.log.rows[id], s.m.cursor.rev)
  {
    assert Tracks(s.log, s.m.cursor, s.m.rows, id);
  }

  /**
    Conversely only a collected tombstone can be missing from the feed, and then
    the provider rejects the cursor: the mirror keeps a row of an item gone for good
    only under a cursor strictly between 0 and min rev.
   */
  lemma MissedRemovalIsRejected(s: Sys, id: string)
    requires Inv(s) && s.m.cursor.epoch == s.log.epoch
    requires Replication.Counts(s.m.cursor, s.m.rows, id) && id !in s.log.rows
    ensures 0 < s.m.cursor.rev < s.log.minRev
  {
    assert Tracks(s.log, s.m.cursor, s.m.rows, id);
  }

  /**
    No commit drops an item offered when what it commits was served: not a reset, not a resumed
    resync, not a sweep.
   */
  lemma NothingOfferedVanishes(s: Sys, t: Sys, id: string)
    requires Inv(s) && Next(s, Commit, t)
    requires id in s.m.rows && Offers(s.phase.snap, id)
    ensures id in t.m.rows
  {
    if s.phase.Listed? {
      LegacyCommitted(s, t);
      assert id in Contents(t.m);
    } else {
      PageCommitted(s, t);
      var cur, page, snap := s.phase.cur, s.phase.page, s.phase.snap;
      if page.more {
        var limit: nat :| limit > 0 && page == PageOf(snap, cur.epoch, cur.rev, limit);
        PageExact(snap, cur.epoch, cur.rev, limit);
        PageAt(snap, Effective(snap, cur.epoch, cur.rev), page, s.m.rows, Reset(cur, page).gen, id);
      } else {
        assert id in Contents(t.m);
      }
    }
  }

  /** Conversely a commit adds only what was offered when what it commits was served. */
  lemma NothingUnofferedAppears(s: Sys, t: Sys, id: string)
    requires Inv(s) && Next(s, Commit, t) && id in t.m.rows
    ensures id in s.m.rows || Offers(s.phase.snap, id)
  {
    if s.phase.Listed? {
      LegacyCommitted(s, t);
      assert id in Contents(t.m);
    } else {
      PageCommitted(s, t);
      var cur, page, snap := s.phase.cur, s.phase.page, s.phase.snap;
      if page.more {
        var limit: nat :| limit > 0 && page == PageOf(snap, cur.epoch, cur.rev, limit);
        PageExact(snap, cur.epoch, cur.rev, limit);
        PageAt(snap, Effective(snap, cur.epoch, cur.rev), page, s.m.rows, Reset(cur, page).gen, id);
      } else {
        assert id in Contents(t.m);
      }
    }
  }

  // --------------------------------------------------------------- resyncs

  /** Any mirror at all, as long as its generations do not exceed the cursor's, with a resync requested. */
  ghost predicate Dirty(s: Sys) {
    Sound(s) && s.m.cursor.requested
  }

  /** Dirty, and any pull under way has loaded the request. */
  ghost predicate Repairing(s: Sys) {
    Dirty(s) && (s.phase.Idle? || s.phase.cur.requested)
  }

  /**
    A request is never lost: only a pull that loaded it clears it, by committing a
    page it fetched from a blank cursor or a whole legacy catalog; or the peer is removed.
   */
  lemma RequestNeverLost(s: Sys, e: Event, t: Sys)
    requires Sound(s) && Next(s, e, t)
    requires s.m.cursor.requested && !t.m.cursor.requested
    ensures || e.Prune?
            || (e.Commit? && s.phase.Listed? && s.phase.cur.requested)
            || (e.Commit? && s.phase.Fetched? && s.phase.cur.requested && s.phase.cur.epoch == "" &&
                s.phase.cur.rev == 0 && s.phase.page.reset)
  {
    if e.Commit? && s.phase.Fetched? {
      var cur, page, snap := s.phase.cur, s.phase.page, s.phase.snap;
      var limit: nat :| limit > 0 && page == PageOf(snap, cur.epoch, cur.rev, limit);
    }
  }

  /** Until the request is carried out the mirror may stay wrong; the moment it is cleared, it is right. */
  lemma RequestRepairs(s: Sys, e: Event, t: Sys)
    requires Dirty(s) && Next(s, e, t)
    ensures Inv(t) || Dirty(t)
    ensures Repairing(s) || e.Start? ==> Inv(t) || Repairing(t)
  {
    match e
    case Refresh(_, _, _, _) => RefreshKeeps(s, e, t);
    case Recreate(_) => RecreateKeeps(s, e, t);
    case Fetch(_) => FetchKeeps(s, e, t);
    case FetchLegacy(_) => FetchKeeps(s, e, t);
    case Commit =>
      if s.phase.cur.requested {
        CommitKeeps(s, t);
      } else {
        SoundCommit(s, t);
      }
    case _ =>
  }

  /** An honest page leaves no generation above the one it is written under. */
  lemma PageGens(snap: Log, cur: Cursor, page: Page, rows: map<string, MirrorRow>, limit: nat)
    requires Wf(snap) && limit > 0 && page == PageOf(snap, cur.epoch, cur.rev, limit) && GensUpTo(rows, cur.gen)
    ensures GensUpTo(Upserts(rows, page.changes, Reset(cur, page).gen), Reset(cur, page).gen)
  {
    var gen := Reset(cur, page).gen;
    PageExact(snap, cur.epoch, cur.rev, limit);
    forall id | id in Upserts(rows, page.changes, gen) ensures Upserts(rows, page.changes, gen)[id].gen <= gen {
      PageAt(snap, Effective(snap, cur.epoch, cur.rev), page, rows, gen, id);
    }
  }

  /** Whatever the mirror holds, an honest commit keeps what does not depend on it. */
  lemma SoundCommit(s: Sys, t: Sys)
    requires Sound(s) && Next(s, Commit, t)
    ensures Sound(t)
    ensures s.m.cursor.requested && !s.phase.cur.requested ==> t.m.cursor.requested
  {
    if s.phase.Listed? {
      LegacyCommitted(s, t);
    } else {
      var cur, page, snap := s.phase.cur, s.phase.page, s.phase.snap;
      var limit: nat :| limit > 0 && page == PageOf(snap, cur.epoch, cur.rev, limit);
      PageGens(snap, cur, page, s.m.rows, limit);
    }
  }

  // ------------------------------------------------------------------- runs

  /** run[i + 1] follows from run[i] by events[i]. */
  ghost predicate IsRun(run: seq<Sys>, events: seq<Event>) {
    |run| == |events| + 1 && forall i | 0 <= i < |events| :: Next(run[i], events[i], run[i + 1])
  }

  lemma {:induction false} RunKeeps(run: seq<Sys>, events: seq<Event>, i: nat)
    requires IsRun(run, events) && i < |run| && Inv(run[0])
    ensures Inv(run[i])
  {
    if i > 0 {
      RunKeeps(run, events, i - 1);
      StepKeeps(run[i - 1], events[i - 1], run[i]);
    }
  }

  predicate Serves(e: Event) {
    e.Fetch? || e.FetchLegacy?
  }

  /** Step j served what the pull holds at i, and the pull did nothing since. */
  ghost predicate ServedAt(run: seq<Sys>, events: seq<Event>, j: nat, i: nat) {
    && j < i < |run| && |run| == |events| + 1
    && (run[i].phase.Fetched? || run[i].phase.Listed?)
    && Serves(events[j]) && run[j].log == run[i].phase.snap
    && forall k | j < k < i :: !Serves(events[k]) && !events[k].Start? && !events[k].Commit? && !events[k].Abort?
  }

  /** Whatever a pull holds was served earlier in the run, from the log as it was at that moment. */
  lemma {:induction false} HeldWasServed(run: seq<Sys>, events: seq<Event>, i: nat)
    requires IsRun(run, events) && run[0].phase.Idle? && i < |run|
    requires run[i].phase.Fetched? || run[i].phase.Listed?
    ensures exists j: nat :: ServedAt(run, events, j, i)
  {
    assert Next(run[i - 1], events[i - 1], run[i]);
    if Serves(events[i - 1]) {
      assert ServedAt(run, events, i - 1, i);
    } else {
      HeldWasServed(run, events, i - 1);
      var j: nat :| ServedAt(run, events, j, i - 1);
      assert ServedAt(run, events, j, i);
    }
  }

  /**
    In every run, at every completed pull, the mirror becomes exactly what the
    provider offered at one moment of that pull: the last time it was asked.
   */
  lemma RunRefinesDownload(run: seq<Sys>, events: seq<Event>, i: nat)
    requires IsRun(run, events) && Init(run[0]) && i < |events| && Completes(run[i], events[i])
    ensures exists j: nat :: ServedAt(run, events, j, i) && Contents(run[i + 1].m) == Offered(run[j].log)
  {
    InitInv(run[0]);
    RunKeeps(run, events, i);
    HeldWasServed(run, events, i);
    CompletedPullRefinesDownload(run[i], run[i + 1]);
  }

  /** Everything the pull holds was served while the item was offered. */
  ghost predicate HeldOffers(s: Sys, id: string) {
    s.phase.Fetched? || s.phase.Listed? ==> Offers(s.phase.snap, id)
  }

  /**
    Over a stretch of a run in which the provider offers an item throughout and the
    peer is not removed, a mirrored item stays mirrored.
   */
  lemma {:induction false} RunNeverDropsOffered(run: seq<Sys>, events: seq<Event>, id: string, i: nat)
    requires IsRun(run, events) && Inv(run[0]) && i < |run|
    requires id in run[0].m.rows && HeldOffers(run[0], id)
    requires forall k | 0 <= k < i :: Offers(run[k].log, id) && !events[k].Prune?
    ensures id in run[i].m.rows && HeldOffers(run[i], id)
  {
    if i > 0 {
      RunNeverDropsOffered(run, events, id, i - 1);
      RunKeeps(run, events, i - 1);
      assert Next(run[i - 1], events[i - 1], run[i]);
      if events[i - 1].Commit? {
        NothingOfferedVanishes(run[i - 1], run[i], id);
      }
    }
  }

  /** Once a pull has loaded a request, every later state is in step or still repairing. */
  lemma {:induction false} RunRepairs(run: seq<Sys>, events: seq<Event>, i: nat)
    requires IsRun(run, events) && Dirty(run[0]) && 0 < i < |run| && events[0].Start?
    ensures Inv(run[i]) || Repairing(run[i])
  {
    assert Next(run[i - 1], events[i - 1], run[i]);
    if i == 1 {
      RequestRepairs(run[0], events[0], run[1]);
    } else {
      RunRepairs(run, events, i - 1);
      if Inv(run[i - 1]) {
        StepKeeps(run[i - 1], events[i - 1], run[i]);
      } else {
        RequestRepairs(run[i - 1], events[i - 1], run[i]);
      }
    }
  }

  /**
    A requested resync is self-stabilising: whatever the mirror held when the
    request was made, the next pull started after it that completes, and every
    later one, makes the mirror equal to the offer.
   */
  lemma ResyncStabilises(run: seq<Sys>, events: seq<Event>, i: nat)
    requires IsRun(run, events) && Dirty(run[0]) && events != [] && events[0].Start?
    requires 0 < i < |events| && Completes(run[i], events[i])
    ensures exists j: nat :: ServedAt(run, events, j, i) && Contents(run[i + 1].m) == Offered(run[j].log)
  {
    assert Next(run[0], events[0], run[1]);
    HeldWasServed(run, events, i);
    RunRepairs(run, events, i);
    if Inv(run[i]) {
      CompletedPullRefinesDownload(run[i], run[i + 1]);
    } else if run[i].phase.Fetched? {
      PageCommitted(run[i], run[i + 1]);
    } else {
      LegacyCommitted(run[i], run[i + 1]);
    }
  }
}
