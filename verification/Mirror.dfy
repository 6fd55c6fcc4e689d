/**
  The consumer side of the change feed: the mirror of one peer's catalog and the
  cursor that follows its feed (internal/catalog/pull.go).
 */
module Mirror {
  import opened Wrappers
  import opened Entries
  import opened Feed

  /**
    One row of peer_sync_state. A peer without a row reads as Blank; requested is
    the stored resync_requested in a table row, and the loaded one in a pull.
   */
  datatype Cursor = Cursor(epoch: string, rev: int, gen: int, resync: bool, requested: bool)

  const Blank: Cursor := Cursor("", 0, 0, false, false)

  /** One row of peer_catalog: an entry and the generation it was last written under. */
  datatype MirrorRow = MirrorRow(entry: Entry, gen: int)

  /** What a node stores about one peer. */
  datatype Mirror = Mirror(cursor: Cursor, rows: map<string, MirrorRow>)

  /** The mirrored entries, as the election reads them. */
  function Contents(m: Mirror): map<string, Entry> {
    map id | id in m.rows :: m.rows[id].entry
  }

  /** loadCursor: a requested resync forgets the position but keeps the generation. */
  function Load(c: Cursor): Cursor {
    if c.requested then c.(epoch := "", rev := 0) else c
  }

  /** RequestResync. */
  function Requested(m: Mirror): Mirror {
    m.(cursor := m.cursor.(requested := true))
  }

  predicate Removes(c: Change) {
    c.deleted || c.entry.None?
  }

  /** One change written under generation gen. */
  function Upsert(rows: map<string, MirrorRow>, c: Change, gen: int): map<string, MirrorRow> {
    if Removes(c) then rows - {c.globalID}
    else rows[c.entry.value.globalID := MirrorRow(c.entry.value, gen)]
  }

  function Upserts(rows: map<string, MirrorRow>, changes: seq<Change>, gen: int): map<string, MirrorRow> {
    if changes == [] then rows
    else Upsert(Upserts(rows, changes[..|changes| - 1], gen), changes[|changes| - 1], gen)
  }

  /** How many of the changes remove an item; each of the others writes one. */
  function Removals(changes: seq<Change>): nat {
    if changes == [] then 0
    else Removals(changes[..|changes| - 1]) + if Removes(changes[|changes| - 1]) then 1 else 0
  }

  /** The rows a sweep leaves: those of generation gen or later. */
  function Swept(rows: map<string, MirrorRow>, gen: int): map<string, MirrorRow> {
    map id | id in rows && rows[id].gen >= gen :: rows[id]
  }

  /** applyChanges: the stored cursor and rows after one committed page. */
  function Apply(m: Mirror, cur: Cursor, changes: seq<Change>, sweep: bool): Mirror {
    var rows := Upserts(m.rows, changes, cur.gen);
    Mirror(cur.(requested := if cur.requested then false else m.cursor.requested),
           if sweep then Swept(rows, cur.gen) else rows)
  }

  /** The pull's cursor as adjusted by a page, before the page is written. */
  function Reset(cur: Cursor, page: Page): Cursor {
    if page.reset || page.epoch != cur.epoch
    then cur.(epoch := page.epoch, gen := cur.gen + 1, resync := true)
    else cur
  }

  /** A page that has more to come must move the cursor, unless it restarts the feed. */
  predicate Stalls(cur: Cursor, page: Page) {
    page.more && page.next <= cur.rev && !page.reset
  }

  /** The cursor a page is written with, and whether it completes a resync. */
  function Advanced(cur: Cursor, page: Page): Cursor {
    var c := Reset(cur, page).(rev := page.next);
    if page.more then c else c.(resync := false)
  }

  predicate Sweeps(cur: Cursor, page: Page) {
    !page.more && Reset(cur, page).resync
  }

  /** The mirror after committing a page fetched by a pull whose cursor was cur. */
  function Committed(m: Mirror, cur: Cursor, page: Page): Mirror {
    Apply(m, Advanced(cur, page), page.changes, Sweeps(cur, page))
  }

  /** The pull's cursor for the page after this one. */
  function Continued(cur: Cursor, page: Page): Cursor {
    Advanced(cur, page).(requested := false)
  }

  // ----------------------------------------------------------------- legacy

  /** A legacy catalog as changes. */
  function AsChanges(entries: seq<Entry>): seq<Change> {
    seq(|entries|, i requires 0 <= i < |entries| => Change(0, entries[i].globalID, false, Some(entries[i])))
  }

  /** The mirror after a whole legacy fetch by a pull whose cursor was cur. */
  function CommittedLegacy(m: Mirror, cur: Cursor, entries: seq<Entry>): Mirror {
    Apply(m, Cursor("", 0, cur.gen + 1, false, cur.requested), AsChanges(entries), true)
  }

  // ------------------------------------------------------------------ pulls

  /** What came of one page request and of committing what it brought. */
  datatype Answer =
    | Failed
    | Served(page: Page, commits: bool)
    | NoFeed(entries: Option<seq<Entry>>, commits: bool)

  datatype Status = Running | Done | Error

  datatype Pull = Pull(m: Mirror, cur: Cursor, status: Status)

  /** One iteration of the pull loop. */
  function OnAnswer(m: Mirror, cur: Cursor, a: Answer): Pull {
    match a
    case Failed => Pull(m, cur, Error)
    case NoFeed(entries, commits) =>
      if entries.None? || !commits then Pull(m, cur, Error)
      else Pull(CommittedLegacy(m, cur, entries.value), cur, Done)
    case Served(page, commits) =>
      if Stalls(cur, page) || !commits then Pull(m, cur, Error)
      else Pull(Committed(m, cur, page), Continued(cur, page), if page.more then Running else Done)
  }

  /** A pull fed with answers; it stays Running if it is cut off after the last of them. */
  function Pulled(m: Mirror, cur: Cursor, answers: seq<Answer>): Pull
    decreases |answers|
  {
    if answers == [] then Pull(m, cur, Running)
    else
      var p := OnAnswer(m, cur, answers[0]);
      if p.status != Running then p else Pulled(p.m, p.cur, answers[1..])
  }

  /**
    Whatever the peer answers, a pull it never restarts moves on by at least one revision a page: no
    peer can keep it on pages that do not advance.
   */
  lemma {:induction false} PullAdvances(m: Mirror, cur: Cursor, answers: seq<Answer>)
    requires forall i | 0 <= i < |answers| :: answers[i].Served? && answers[i].page.more && !answers[i].page.reset
    ensures var p := Pulled(m, cur, answers); p.status == Running ==> p.cur.rev >= cur.rev + |answers|
    decreases |answers|
  {
    if answers != [] {
      var p := OnAnswer(m, cur, answers[0]);
      PullAdvances(p.m, p.cur, answers[1..]);
    }
  }

  /** How much one pull changed. */
  datatype PullStats = PullStats(upserts: nat, deletes: nat, swept: nat, pages: nat)

  class PeerMirror {
    var cursor: Cursor
    var rows: map<string, MirrorRow>

    /** The mirror as the tables hold it. */
    constructor (m: Mirror)
      ensures State() == m
    {
      cursor := m.cursor;
      rows := m.rows;
    }

    function State(): Mirror
      reads this
    {
      Mirror(cursor, rows)
    }

    method RequestResync()
      modifies this`cursor
      ensures cursor == old(cursor).(requested := true)
    {
      cursor := cursor.(requested := true);
    }

    method LoadCursor() returns (c: Cursor)
      ensures c == Load(cursor)
      ensures c == if cursor.requested then cursor.(epoch := "", rev := 0) else cursor
    {
      c := cursor;
      if c.requested {
        c := c.(epoch := "", rev := 0);
      }
    }

    /** Drops the rows of generations before gen from a transaction's working copy. */
    static method Sweep(tx: map<string, MirrorRow>, gen: int) returns (kept: map<string, MirrorRow>, swept: nat)
      ensures kept == Swept(tx, gen) && swept == |tx.Keys - kept.Keys|
    {
      kept := map id | id in tx && !(tx[id].gen < gen) :: tx[id];
      swept := |tx.Keys - kept.Keys|;
    }

    /** Writes one page and the cursor it advances to, atomically; with sweep also drops older generations. */
    method ApplyChanges(cur: Cursor, changes: seq<Change>, sweep: bool, commits: bool)
      returns (ok: bool, upserts: nat, deletes: nat, swept: nat)
      modifies this
      ensures ok == commits
      ensures State() == if commits then Apply(old(State()), cur, changes, sweep) else old(State())
      ensures deletes == if commits then Removals(changes) else 0
      ensures upserts == if commits then |changes| - Removals(changes) else 0
      ensures swept == if commits && sweep then |Upserts(old(rows), changes, cur.gen).Keys - rows.Keys| else 0
    {
      var tx := rows;
      upserts, deletes, swept := 0, 0, 0;
      for i := 0 to |changes|
        invariant tx == Upserts(rows, changes[..i], cur.gen)
        invariant deletes == Removals(changes[..i]) && upserts + deletes == i
      {
        assert changes[..i + 1][..i] == changes[..i];
        var c := changes[i];
        if c.deleted || c.entry.None? {
          tx := tx - {c.globalID};
          deletes := deletes + 1;
          continue;
        }
        tx := tx[c.entry.value.globalID := MirrorRow(c.entry.value, cur.gen)];
        upserts := upserts + 1;
      }
      assert changes[..|changes|] == changes;
      if sweep {
        tx, swept := Sweep(tx, cur.gen);
      }
      if !commits {
        return false, 0, 0, 0;
      }
      cursor := cur.(requested := if cur.requested then false else cursor.requested);
      rows := tx;
      ok := true;
    }

    /** One page: adjusts the pull's cursor to it and commits both. */
    method OnPage(cur: Cursor, page: Page, commits: bool)
      returns (cur': Cursor, status: Status, ups: nat, dels: nat, swept: nat)
      modifies this
      ensures Pull(State(), cur', status) == OnAnswer(old(State()), cur, Served(page, commits))
    {
      cur', status, ups, dels, swept := cur, Error, 0, 0, 0;
      var next := cur;
      if page.reset || page.epoch != cur.epoch {
        next := next.(epoch := page.epoch, gen := cur.gen + 1, resync := true);
      }
      if page.more && page.next <= cur.rev && !page.reset {
        return;
      }
      next := next.(rev := page.next);
      var sweep := !page.more && next.resync;
      if sweep {
        next := next.(resync := false);
      }
      assert next == Advanced(cur, page) && sweep == Sweeps(cur, page);
      var ok;
      ok, ups, dels, swept := ApplyChanges(next, page.changes, sweep, commits);
      if !ok {
        return;
      }
      cur' := next.(requested := false);
      status := if page.more then Running else Done;
    }

    /** A whole legacy catalog replaces the mirror. */
    method PullLegacy(cur: Cursor, entries: Option<seq<Entry>>, commits: bool)
      returns (status: Status, ups: nat, swept: nat)
      modifies this
      ensures Pull(State(), cur, status) == OnAnswer(old(State()), cur, NoFeed(entries, commits))
    {
      if entries.None? {
        return Error, 0, 0;
      }
      var next := Cursor("", 0, cur.gen + 1, false, cur.requested);
      var ok, dels;
      ok, ups, dels, swept := ApplyChanges(next, AsChanges(entries.value), true, commits);
      status := if ok then Done else Error;
    }

    /** Follows the feed from the stored cursor until caught up, an error, or the end of the answers. */
    method PullPeer(answers: seq<Answer>) returns (status: Status, st: PullStats)
      modifies this
      ensures var p := Pulled(old(State()), Load(old(cursor)), answers);
              State() == p.m && status == p.status
    {
      var cur := LoadCursor();
      st := PullStats(0, 0, 0, 0);
      ghost var result := Pulled(State(), cur, answers);
      for i := 0 to |answers|
        invariant result == Pulled(State(), cur, answers[i..])
      {
        ghost var rest := answers[i..];
        assert rest[0] == answers[i] && rest[1..] == answers[i + 1..];
        var ups, dels, swept := 0, 0, 0;
        match answers[i]
        case Failed =>
          return Error, st;
        case NoFeed(entries, commits) =>
          status, ups, swept := PullLegacy(cur, entries, commits);
          return status, st.(upserts := ups, swept := swept, pages := st.pages + 1);
        case Served(page, commits) =>
          cur, status, ups, dels, swept := OnPage(cur, page, commits);
          st := PullStats(st.upserts + ups, st.deletes + dels, st.swept + swept, st.pages + 1);
          if status != Running {
            return;
          }
      }
      status := Running;
    }
  }
}
