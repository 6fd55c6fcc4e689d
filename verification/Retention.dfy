/**
  Tombstone retention over time: with a clock that never goes back and refreshes
  stamped when they commit, collection drops exactly the expired tombstones, and a
  consumer that completes a pull once per retention period is never reset by it.
 */
module Retention {
  import opened Wrappers
  import opened Entries
  import opened Feed
  import Replication

  /** Later revisions carry later times, none later than now. */
  ghost predicate Chronological(l: Log, now: int) {
    && (forall id | id in l.rows :: l.rows[id].updatedAt <= now)
    && (forall a, b | a in l.rows && b in l.rows && l.rows[a].rev <= l.rows[b].rev ::
        l.rows[a].updatedAt <= l.rows[b].updatedAt)
  }

  /** Collection drops exactly the expired tombstones, and raises min rev exactly when there are any. */
  lemma CollectsExactlyExpired(before: Log, now: int, l: Log)
    requires Wf(before) && Chronological(before, now) && Collected(before, now, l)
    ensures forall id ::
              id in l.rows <==>
              id in before.rows && (before.rows[id].deleted ==> before.rows[id].updatedAt >= now - 30 * 24 * 3600)
    ensures forall id | id in l.rows :: l.rows[id] == before.rows[id]
    ensures before.minRev < l.minRev <==> exists id :: id in before.rows && id !in l.rows
    ensures before.minRev == l.minRev <==> l == before
  {
    CollectedKeepsWf(before, now, l);
  }

  lemma RelistedChronological(before: Log, current: map<string, Entry>, hides: set<string>, now: int, l: Log)
    requires Wf(before) && Chronological(before, now) && Relisted(before, current, hides, now, l)
    ensures Chronological(l, now)
    ensures forall id | id in l.rows ::
              || (id in before.rows && l.rows[id] == before.rows[id])
              || (l.rows[id].rev > before.head && l.rows[id].updatedAt == now)
  {
    forall id | id in l.rows
      ensures (id in before.rows && l.rows[id] == before.rows[id] && l.rows[id].rev <= before.head) ||
              (l.rows[id].rev > before.head && l.rows[id].updatedAt == now)
    {
      assert RowRelisted(before, current, hides, now, l, id);
      assert id in before.rows ==> RowOk(before, id);
    }
  }

  // ------------------------------------------------------ revisions and age

  /** Everything past rev is no older than at, and min rev passes rev only a retention period after at. */
  ghost predicate YoungSince(l: Log, rev: int, at: int, clock: int) {
    && at <= clock
    && (forall id | id in l.rows && l.rows[id].rev > rev :: l.rows[id].updatedAt >= at)
    && (l.minRev > rev ==> at + TOMBSTONE_TTL < clock)
  }

  lemma HeadIsYoung(l: Log, clock: int)
    requires Wf(l)
    ensures YoungSince(l, l.head, clock, clock)
  {
    assert forall id | id in l.rows :: RowOk(l, id);
  }

  lemma YoungRelisted(before: Log, current: map<string, Entry>, hides: set<string>, mid: Log, rev: int, at: int,
                      clock: int)
    requires Wf(before) && Chronological(before, clock) && YoungSince(before, rev, at, clock)
    requires Relisted(before, current, hides, clock, mid)
    ensures YoungSince(mid, rev, at, clock)
  {
    RelistedChronological(before, current, hides, clock, mid);
  }

  lemma YoungCollected(mid: Log, l: Log, rev: int, at: int, clock: int)
    requires YoungSince(mid, rev, at, clock) && Collected(mid, clock, l)
    ensures YoungSince(l, rev, at, clock)
  {
    if l != mid {
      var w :| w in mid.rows && Expired(mid.rows[w], clock) && mid.rows[w].rev == l.minRev;
    }
  }

  lemma CollectedChronological(mid: Log, l: Log, clock: int)
    requires Chronological(mid, clock) && Collected(mid, clock, l)
    ensures Chronological(l, clock)
  {
  }

  /** A refresh records only what is new, and collects past rev only what has expired. */
  lemma RefreshedAges(before: Log, current: map<string, Entry>, hides: set<string>, l: Log, clock: int)
    requires Wf(before) && Chronological(before, clock) && Refreshed(before, current, hides, clock, l)
    ensures Chronological(l, clock)
    ensures forall rev, at | YoungSince(before, rev, at, clock) :: YoungSince(l, rev, at, clock)
  {
    var mid :| Relisted(before, current, hides, clock, mid) && Collected(mid, clock, l);
    RelistedChronological(before, current, hides, clock, mid);
    CollectedChronological(mid, l, clock);
    forall rev, at | YoungSince(before, rev, at, clock) ensures YoungSince(l, rev, at, clock) {
      YoungRelisted(before, current, hides, mid, rev, at, clock);
      YoungCollected(mid, l, rev, at, clock);
    }
  }

  // ------------------------------------------------------------ with a clock

  /**
    The replicated system at a time; served is when the pull was last served a page, and
    caughtUp when the last page of the last completed pull was, if the stored cursor goes
    on from that pull.
   */
  datatype Timed = Timed(s: Replication.Sys, clock: int, served: int, caughtUp: Option<int>)
  {
    /** The page being committed restarts the mirror instead of continuing it. */
    predicate Restarts()
      requires s.phase.Fetched?
    {
      s.phase.page.reset || s.phase.page.epoch != s.phase.cur.epoch
    }

    function CaughtUpAfter(a: Replication.Event): Option<int> {
      if a.Commit? && s.phase.Fetched? then
        if !s.phase.page.more then Some(served) else if Restarts() then None else caughtUp
      else if (a.Commit? && s.phase.Listed?) || a.Prune? then None
      else caughtUp
    }
  }

  datatype Event = Tick(to: int) | Act(a: Replication.Event)

  ghost predicate Next(t: Timed, e: Event, u: Timed) {
    match e
    case Tick(to) => t.clock <= to && u == t.(clock := to)
    case Act(a) =>
      && Replication.Next(t.s, a, u.s) && (a.Refresh? ==> a.now == t.clock)
      && u.clock == t.clock
      && u.served == (if a.Fetch? then t.clock else t.served)
      && u.caughtUp == t.CaughtUpAfter(a)
  }

  ghost predicate Init(t: Timed) {
    Replication.Init(t.s) && Chronological(t.s.log, t.clock) && t.caughtUp == None
  }

  /** What was served is still young, and so is everything past a cursor that is caught up. */
  ghost predicate Aged(t: Timed) {
    var s := t.s;
    && (s.phase.Fetched? && s.phase.snap.epoch == s.log.epoch ==>
        YoungSince(s.log, s.phase.snap.head, t.served, t.clock))
    && (t.caughtUp.Some? && s.m.cursor.epoch == s.log.epoch ==>
        YoungSince(s.log, s.m.cursor.rev, t.caughtUp.value, t.clock))
  }

  ghost predicate Inv(t: Timed) {
    Replication.Inv(t.s) && Chronological(t.s.log, t.clock) && Aged(t)
  }

  lemma InitInv(t: Timed)
    requires Init(t)
    ensures Inv(t)
  {
    Replication.InitInv(t.s);
  }

  /** A pull that completes leaves the stored cursor at the head its last page was served at. */
  lemma CompletedAtHead(s: Replication.Sys, t: Replication.Sys)
    requires Replication.Inv(s) && Replication.Next(s, Replication.Commit, t) && s.phase.Fetched? && !s.phase.page.more
    ensures t.m.cursor.epoch == s.phase.snap.epoch && t.m.cursor.rev == s.phase.snap.head
  {
    var cur, page, snap := s.phase.cur, s.phase.page, s.phase.snap;
    var limit: nat :| limit > 0 && page == PageOf(snap, cur.epoch, cur.rev, limit);
    PageExact(snap, cur.epoch, cur.rev, limit);
    Replication.PageCommitted(s, t);
  }

  /** A page that continues the mirror only moves the stored cursor on. */
  lemma ContinuedMovesOn(s: Replication.Sys, t: Replication.Sys)
    requires Replication.Inv(s) && Replication.Next(s, Replication.Commit, t) && s.phase.Fetched?
    requires s.phase.page.more && !s.phase.page.reset && s.phase.page.epoch == s.phase.cur.epoch
    ensures t.m.cursor.epoch == s.m.cursor.epoch && s.m.cursor.rev <= t.m.cursor.rev
  {
    var cur, page, snap := s.phase.cur, s.phase.page, s.phase.snap;
    var limit: nat :| limit > 0 && page == PageOf(snap, cur.epoch, cur.rev, limit);
    Replication.PageCommitted(s, t);
    assert snap.epoch != "" && !cur.requested;
  }

  lemma CommitAges(t: Timed, u: Timed)
    requires Inv(t) && Next(t, Act(Replication.Commit), u)
    ensures Aged(u)
  {
    if t.s.phase.Fetched? {
      if !t.s.phase.page.more {
        CompletedAtHead(t.s, u.s);
      } else if !t.Restarts() {
        ContinuedMovesOn(t.s, u.s);
      }
    }
  }

  lemma RefreshAges(t: Timed, a: Replication.Event, u: Timed)
    requires Inv(t) && a.Refresh? && Next(t, Act(a), u)
    ensures Aged(u) && Chronological(u.s.log, u.clock)
  {
    RefreshedAges(t.s.log, a.current, a.hides, u.s.log, t.clock);
    RefreshKeepsEpoch(t.s.log, a.current, a.hides, t.clock, u.s.log);
  }

  lemma RefreshKeepsEpoch(before: Log, current: map<string, Entry>, hides: set<string>, now: int, l: Log)
    requires Refreshed(before, current, hides, now, l)
    ensures l.epoch == before.epoch
  {
  }

  lemma StepKeeps(t: Timed, e: Event, u: Timed)
    requires Inv(t) && Next(t, e, u)
    ensures Inv(u)
  {
    if e.Act? {
      Replication.StepKeeps(t.s, e.a, u.s);
      if e.a.Refresh? {
        RefreshAges(t, e.a, u);
      } else {
        OthersAge(t, e.a, u);
      }
    }
  }

  lemma OthersAge(t: Timed, a: Replication.Event, u: Timed)
    requires Inv(t) && !a.Refresh? && Next(t, Act(a), u)
    ensures Aged(u) && Chronological(u.s.log, u.clock)
  {
    if a.Commit? {
      CommitAges(t, u);
    } else if a.Fetch? {
      HeadIsYoung(t.s.log, t.clock);
    }
  }

  ghost predicate Leads(run: seq<Timed>, events: seq<Event>, j: nat)
    requires j < |events| && |run| == |events| + 1
  {
    Next(run[j], events[j], run[j + 1])
  }

  ghost predicate IsRun(run: seq<Timed>, events: seq<Event>) {
    |run| == |events| + 1 && forall j | 0 <= j < |events| :: Leads(run, events, j)
  }

  lemma {:induction false} RunKeeps(run: seq<Timed>, events: seq<Event>, i: nat)
    requires IsRun(run, events) && i < |run| && Init(run[0])
    ensures Inv(run[i])
  {
    if i == 0 {
      InitInv(run[0]);
    } else {
      RunKeeps(run, events, i - 1);
      assert Leads(run, events, i - 1);
      StepKeeps(run[i - 1], events[i - 1], run[i]);
    }
  }

  /**
    In every run: within one retention period, thirty days, of being served the last page of a
    completed pull, the stored cursor is one the provider goes on from, and a pull that
    goes on from it is not restarted. Only a new provider database or a requested resync
    makes the consumer start over.
   */
  lemma PunctualConsumerNeverReset(run: seq<Timed>, events: seq<Event>, i: nat)
    requires IsRun(run, events) && Init(run[0]) && i < |run|
    requires run[i].caughtUp.Some? && run[i].clock <= run[i].caughtUp.value + 30 * 24 * 3600
    requires run[i].s.m.cursor.epoch == run[i].s.log.epoch
    ensures var s := run[i].s;
            && !Unusable(s.log, s.m.cursor.epoch, s.m.cursor.rev)
            && (s.phase.Ready? && !s.phase.cur.requested ==>
                  forall limit: nat | limit > 0 :: !PageOf(s.log, s.phase.cur.epoch, s.phase.cur.rev, limit).reset)
  {
    RunKeeps(run, events, i);
  }
}
