/**
  When a pull ends against a provider that does not refresh meanwhile. It is not
  always: a restarted feed whose first page stops below min rev hands out a cursor
  the provider itself rejects, and the pull repeats that page forever.
 */
module Termination {
  import opened Bytes
  import opened Entries
  import opened Feed
  import opened Mirror

  /** A pull from cursor cur after at most n pages of the unchanging log l. */
  ghost function AfterPages(l: Log, limit: nat, m: Mirror, cur: Cursor, n: nat): Pull
    requires limit > 0
    decreases n
  {
    if n == 0 then Pull(m, cur, Running)
    else
      var p := OnAnswer(m, cur, Served(PageOf(l, cur.epoch, cur.rev, limit), true));
      if p.status != Running then p else AfterPages(l, limit, p.m, p.cur, n - 1)
  }

  ghost predicate Ends(l: Log, limit: nat, m: Mirror, cur: Cursor)
    requires limit > 0
  {
    exists n: nat :: AfterPages(l, limit, m, cur, n).status != Running
  }

  /**
    The pull is served from the beginning, more visible rows than one page holds
    exist, and the last one on the first page is older than a collected tombstone.
    The first page need not be a reset: a cursor at rev 0 is also served from there.
   */
  ghost predicate Stuck(l: Log, limit: nat, cur: Cursor)
    requires limit > 0
  {
    var first := PageOf(l, cur.epoch, cur.rev, limit);
    Effective(l, cur.epoch, cur.rev) == 0 && first.more && first.next < l.minRev
  }

  /** One page never fails, and goes on from its next cursor exactly if it has more. */
  lemma OnePage(l: Log, limit: nat, m: Mirror, cur: Cursor) returns (p: Pull)
    requires Wf(l) && limit > 0
    ensures p == OnAnswer(m, cur, Served(PageOf(l, cur.epoch, cur.rev, limit), true))
    ensures var page := PageOf(l, cur.epoch, cur.rev, limit);
            && p.status == (if page.more then Running else Done)
            && p.cur.epoch == l.epoch && p.cur.rev == page.next
            && (page.more ==> Effective(l, cur.epoch, cur.rev) < page.next <= l.head)
  {
    PageExact(l, cur.epoch, cur.rev, limit);
    p := OnAnswer(m, cur, Served(PageOf(l, cur.epoch, cur.rev, limit), true));
  }

  /** A page followed from a cursor the provider accepts leads to the end, or to a later one it accepts. */
  lemma OneDelta(l: Log, limit: nat, m: Mirror, cur: Cursor) returns (p: Pull)
    requires Wf(l) && l.epoch != "" && limit > 0
    requires cur.rev > 0 && !Unusable(l, cur.epoch, cur.rev)
    ensures p == OnAnswer(m, cur, Served(PageOf(l, cur.epoch, cur.rev, limit), true))
    ensures p.status == Done || p.status == Running
    ensures p.status == Running ==> cur.rev < p.cur.rev <= l.head && !Unusable(l, p.cur.epoch, p.cur.rev)
  {
    p := OnePage(l, limit, m, cur);
  }

  /** A cursor the provider accepts past rev 0 is followed to the head, one page at least per revision. */
  lemma {:induction false} DeltaEnds(l: Log, limit: nat, m: Mirror, cur: Cursor)
    requires Wf(l) && l.epoch != "" && limit > 0
    requires cur.rev > 0 && !Unusable(l, cur.epoch, cur.rev)
    ensures AfterPages(l, limit, m, cur, l.head - cur.rev + 1).status == Done
    decreases l.head - cur.rev
  {
    var p := OneDelta(l, limit, m, cur);
    AfterFirst(l, limit, m, cur, p, l.head - cur.rev);
    if p.status == Running {
      DeltaEnds(l, limit, p.m, p.cur);
      AfterPagesMore(l, limit, p.m, p.cur, l.head - p.cur.rev + 1, l.head - cur.rev);
    }
  }

  /** A pull that has ended stays ended. */
  lemma {:induction false} AfterPagesMore(l: Log, limit: nat, m: Mirror, cur: Cursor, n: nat, k: nat)
    requires limit > 0 && n <= k && AfterPages(l, limit, m, cur, n).status != Running
    ensures AfterPages(l, limit, m, cur, k) == AfterPages(l, limit, m, cur, n)
    decreases n
  {
    var p := OnAnswer(m, cur, Served(PageOf(l, cur.epoch, cur.rev, limit), true));
    if p.status == Running {
      AfterPagesMore(l, limit, p.m, p.cur, n - 1, k - 1);
    }
  }

  lemma AfterFirst(l: Log, limit: nat, m: Mirror, cur: Cursor, p: Pull, n: nat)
    requires limit > 0 && p == OnAnswer(m, cur, Served(PageOf(l, cur.epoch, cur.rev, limit), true))
    ensures AfterPages(l, limit, m, cur, n + 1) ==
            if p.status != Running then p else AfterPages(l, limit, p.m, p.cur, n)
  {
  }

  /** A pull served from scratch whose first page reaches min rev goes on as a delta. */
  lemma ScratchEnds(l: Log, limit: nat, m: Mirror, cur: Cursor)
    requires Wf(l) && l.epoch != "" && limit > 0
    requires Effective(l, cur.epoch, cur.rev) == 0
    requires PageOf(l, cur.epoch, cur.rev, limit).more ==> l.minRev <= PageOf(l, cur.epoch, cur.rev, limit).next
    ensures AfterPages(l, limit, m, cur, l.head + 1).status == Done
  {
    var p := OnePage(l, limit, m, cur);
    AfterFirst(l, limit, m, cur, p, l.head);
    if p.status == Running {
      DeltaEnds(l, limit, p.m, p.cur);
      AfterPagesMore(l, limit, p.m, p.cur, l.head - p.cur.rev + 1, l.head);
    }
  }

  /** Unless stuck, a pull is done within as many pages as revisions lie ahead, plus one. */
  lemma NotStuckEnds(l: Log, limit: nat, m: Mirror, cur: Cursor)
    requires Wf(l) && l.epoch != "" && limit > 0 && !Stuck(l, limit, cur)
    ensures AfterPages(l, limit, m, cur, l.head - Effective(l, cur.epoch, cur.rev) + 1).status == Done
  {
    if Effective(l, cur.epoch, cur.rev) > 0 {
      DeltaEnds(l, limit, m, cur);
    } else {
      assert Effective(l, cur.epoch, cur.rev) == 0;
      ScratchEnds(l, limit, m, cur);
    }
  }

  /**
    A stuck pull repeats its first page forever: after any number of pages it is
    still running, and the next page has the same changes and the same next cursor.
   */
  lemma {:induction false} StuckForever(l: Log, limit: nat, m: Mirror, cur: Cursor, n: nat)
    requires Wf(l) && l.epoch != "" && limit > 0 && Stuck(l, limit, cur)
    ensures var p := AfterPages(l, limit, m, cur, n);
            && p.status == Running && Stuck(l, limit, p.cur)
            && PageOf(l, p.cur.epoch, p.cur.rev, limit).(reset := true) ==
                PageOf(l, cur.epoch, cur.rev, limit).(reset := true)
            && (n > 0 ==> Unusable(l, p.cur.epoch, p.cur.rev))
    decreases n
  {
    var p := OnePage(l, limit, m, cur);
    if n > 0 {
      assert Unusable(l, p.cur.epoch, p.cur.rev);
      StuckForever(l, limit, p.m, p.cur, n - 1);
    }
  }

  /** Exactly the stuck pulls never end, and a pull that ends is never cut short by an error. */
  lemma EndsExactly(l: Log, limit: nat, m: Mirror, cur: Cursor)
    requires Wf(l) && l.epoch != "" && limit > 0
    ensures Ends(l, limit, m, cur) <==> !Stuck(l, limit, cur)
    ensures forall n: nat :: AfterPages(l, limit, m, cur, n).status != Error
  {
    if Stuck(l, limit, cur) {
      forall n: nat ensures AfterPages(l, limit, m, cur, n).status == Running {
        StuckForever(l, limit, m, cur, n);
      }
    } else {
      NotStuckEnds(l, limit, m, cur);
      var last := l.head - Effective(l, cur.epoch, cur.rev) + 1;
      forall n: nat ensures AfterPages(l, limit, m, cur, n).status != Error {
        if AfterPages(l, limit, m, cur, n).status != Running {
          AfterPagesMore(l, limit, m, cur, n, if n <= last then last else n);
          AfterPagesMore(l, limit, m, cur, last, if n <= last then last else n);
        }
      }
    }
  }

  /** When the first page is a reset: the pull ends exactly if that page is the last or reaches min rev. */
  lemma ResetEndsExactly(l: Log, limit: nat, m: Mirror, cur: Cursor)
    requires Wf(l) && l.epoch != "" && limit > 0 && Unusable(l, cur.epoch, cur.rev)
    ensures var first := PageOf(l, cur.epoch, cur.rev, limit);
            Ends(l, limit, m, cur) <==> !first.more || first.next >= l.minRev
  {
    EndsExactly(l, limit, m, cur);
  }

  // ------------------------------------------ a first contact that never ends

  function MovieID(k: nat): string {
    "tmdb:" + Decimal(k)
  }

  lemma MovieIDInjective(j: nat, k: nat)
    requires MovieID(j) == MovieID(k)
    ensures j == k
  {
    assert MovieID(j)[5..] == Decimal(j) && MovieID(k)[5..] == Decimal(k);
    DecimalInjective(j, k);
  }

  function MovieRow(k: nat, rev: int, deleted: bool): Row {
    var e := Entry(MovieID(k), "jf", "Movie", 2000, "movie", "", "", "", "/m.mkv", "", "", 0, 0);
    Row(e, ContentHash(e), rev, deleted, false, 0)
  }

  /** n movies, listed at revs 1 to n. */
  function Movies(n: nat): map<string, Row> {
    if n == 0 then map[] else Movies(n - 1)[MovieID(n) := MovieRow(n, n, false)]
  }

  lemma {:induction false} MoviesAt(n: nat)
    ensures |Movies(n)| == n
    ensures forall id | id in Movies(n) :: exists k: nat ::
              1 <= k <= n && id == MovieID(k) && Movies(n)[id] == MovieRow(k, k, false)
  {
    if n > 0 {
      MoviesAt(n - 1);
      if MovieID(n) in Movies(n - 1) {
        var k: nat :| 1 <= k <= n - 1 && MovieID(n) == MovieID(k);
        MovieIDInjective(n, k);
      }
    }
  }

  /** Just more movies than one page holds; one more item came and went, and its tombstone is still there. */
  function WithTombstone(limit: nat): Log {
    Log("epoch", limit + 3, 0, Movies(limit + 1)[MovieID(limit + 2) := MovieRow(limit + 2, limit + 3, true)])
  }

  /** The same log once the tombstone is collected. */
  function AfterCollection(limit: nat): Log {
    Log("epoch", limit + 3, limit + 3, Movies(limit + 1))
  }

  lemma MoviesWf(limit: nat)
    ensures Wf(AfterCollection(limit))
  {
    var l := AfterCollection(limit);
    MoviesAt(limit + 1);
    forall a, b | a in l.rows && b in l.rows && a != b ensures l.rows[a].rev != l.rows[b].rev {
      var j: nat :| 1 <= j <= limit + 1 && a == MovieID(j) && l.rows[a] == MovieRow(j, j, false);
      var k: nat :| 1 <= k <= limit + 1 && b == MovieID(k) && l.rows[b] == MovieRow(k, k, false);
    }
  }

  /** It is what collecting leaves of a well-formed log, a retention period later. */
  lemma CollectionHappens(limit: nat, now: int)
    requires now > TOMBSTONE_TTL
    ensures Wf(WithTombstone(limit)) && Collected(WithTombstone(limit), now, AfterCollection(limit))
  {
    var l, gone := AfterCollection(limit), MovieID(limit + 2);
    MoviesAt(limit + 1);
    MoviesWf(limit);
    if gone in Movies(limit + 1) {
      var k: nat :| 1 <= k <= limit + 1 && gone == MovieID(k);
      MovieIDInjective(limit + 2, k);
    }
    TombstoneCollected(l, gone, MovieRow(limit + 2, limit + 3, true), now);
  }

  /** Collecting a log's only tombstone, its newest row. */
  lemma TombstoneCollected(l: Log, gone: string, r: Row, now: int)
    requires Wf(l) && gone !in l.rows && l.minRev == l.head == r.rev && r.rev > 0
    requires forall id | id in l.rows :: !l.rows[id].deleted && l.rows[id].rev < r.rev
    requires Expired(r, now) && r.entry.globalID == gone && r.hash == ContentHash(r.entry)
    ensures var l0 := l.(minRev := 0, rows := l.rows[gone := r]);
            Wf(l0) && Collected(l0, now, l)
  {
    var l0 := l.(minRev := 0, rows := l.rows[gone := r]);
    forall id | id in l0.rows ensures RowOk(l0, id) {
      assert id != gone ==> RowOk(l, id);
    }
    assert gone in l0.rows && l0.rows[gone] == r;
    assert Retained(l0.rows, l.minRev) == l.rows;
  }

  lemma FirstPageShort(limit: nat)
    requires limit > 0
    ensures Wf(AfterCollection(limit)) && Stuck(AfterCollection(limit), limit, Blank)
  {
    var l := AfterCollection(limit);
    MoviesWf(limit);
    MoviesAt(limit + 1);
    assert Feed.Following(l, 0) == l.rows.Keys;
    PageExact(l, "", 0, limit);
    var page := PageOf(l, "", 0, limit);
    var last := page.changes[limit - 1];
    assert InPage(l, 0, page.next, last.globalID) && page.next == last.rev;
  }

  /** Whatever the page size, a first contact with that log never ends. */
  lemma FirstContactStuck(limit: nat, m: Mirror)
    requires limit > 0
    ensures !Ends(AfterCollection(limit), limit, m, Blank)
  {
    FirstPageShort(limit);
    EndsExactly(AfterCollection(limit), limit, m, Blank);
  }
}
