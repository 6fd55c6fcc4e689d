/**
  The local catalog index as it runs (internal/catalog/index.go): the tables of
  one node, refreshed, collected and served. Every method is proved against the
  relations of module Feed.
 */
module LocalIndex {
  import opened Wrappers
  import opened Entries
  import opened Feed
  import opened Listing
  import opened Order

  /** What one refresh found. */
  datatype RefreshStats = RefreshStats(
    total: nat, added: nat, updated: nat, removed: nat, hidden: nat, unhidden: nat, purged: nat, head: int)
  {
    function Changed(): nat {
      added + updated + removed + hidden + unhidden
    }
  }

  /** The listing keyed by id; of duplicates the last one wins. */
  function LastWins(entries: seq<Entry>): (m: map<string, Entry>)
    ensures Keyed(m)
  {
    if entries == [] then map[]
    else
      var e := entries[|entries| - 1];
      LastWins(entries[..|entries| - 1])[e.globalID := e]
  }

  /** Entry i is the last one listed under id. */
  ghost predicate LastOf(entries: seq<Entry>, id: string, i: nat) {
    && i < |entries| && entries[i].globalID == id
    && forall j | i < j < |entries| :: entries[j].globalID != id
  }

  /** LastWins keeps, for exactly the listed ids, the last entry listed under each. */
  lemma {:induction false} LastWinsExact(entries: seq<Entry>, id: string)
    ensures id in LastWins(entries) <==> exists i :: 0 <= i < |entries| && entries[i].globalID == id
    ensures id in LastWins(entries) ==> exists i: nat :: LastOf(entries, id, i) && LastWins(entries)[id] == entries[i]
  {
    if entries != [] {
      var n := |entries| - 1;
      LastWinsExact(entries[..n], id);
      if entries[n].globalID == id {
        assert LastOf(entries, id, n);
      } else if id in LastWins(entries) {
        var i: nat :| LastOf(entries[..n], id, i) && LastWins(entries[..n])[id] == entries[..n][i];
        LastOfMore(entries, id, i);
      }
    }
  }

  lemma LastOfMore(entries: seq<Entry>, id: string, i: nat)
    requires entries != [] && LastOf(entries[..|entries| - 1], id, i) && entries[|entries| - 1].globalID != id
    ensures LastOf(entries, id, i) && entries[..|entries| - 1][i] == entries[i]
  {
    var n := |entries| - 1;
    forall j | i < j < |entries| ensures entries[j].globalID != id {
      assert j < n ==> entries[..n][j] == entries[j];
    }
  }

  // ------------------------------------------------- a refresh, item by item

  /** What one refresh works from: the log it started with, the listing, the hides and the time. */
  datatype Work = Work(base: Log, current: map<string, Entry>, hides: set<string>, now: int) {

    function KindAt(id: string): Kind {
      KindOf(base.rows, current, hides, id)
    }

    function Among(done: set<string>, k: Kind): set<string> {
      set id | id in done && KindAt(id) == k
    }

    /** The row a changed id gets, under the next revision rev. */
    predicate NextRow(id: string, rev: int, r: Row) {
      if id in current then r == Listed(current[id], hides, rev, now)
      else id in base.rows && r == base.rows[id].(deleted := true, rev := rev, updatedAt := now)
    }

    /** New revisions are distinct from every other and at most the head. */
    ghost predicate Fresh(l: Log) {
      && (forall id | id in l.rows :: l.rows[id].rev <= l.head)
      && (forall a, b | a in l.rows && b in l.rows && a != b && base.head < l.rows[a].rev ::
          l.rows[a].rev != l.rows[b].rev)
    }

    /** Recording id writes a row unless it is a listed item nothing changed about. */
    predicate Due(id: string) {
      id in current || (id in base.rows && KindAt(id) != Same)
    }

    /** The counters say how many of the ids in done are of each kind. */
    ghost predicate Counts(done: set<string>, st: RefreshStats) {
      && st.added == |Among(done, Added)|
      && st.updated == |Among(done, Updated)|
      && st.removed == |Among(done, Removed)|
      && st.hidden == |Among(done, Hid)|
      && st.unhidden == |Among(done, Unhid)|
    }

    /** One row of the loop: id written under the next revision and counted, unless nothing changed. */
    function Step(tx: Log, st: RefreshStats, id: string): (Log, RefreshStats)
      requires Due(id)
    {
      if KindAt(id) == Same then (tx, st)
      else
        var row := if id in current then Listed(current[id], hides, tx.head + 1, now)
                   else base.rows[id].(deleted := true, rev := tx.head + 1, updatedAt := now);
        (tx.(head := tx.head + 1, rows := tx.rows[id := row]), Bump(st, KindAt(id)))
    }

    /** The working copy and counters after the first i ids of q. */
    function After(tx: Log, st: RefreshStats, q: seq<string>, i: nat): (Log, RefreshStats)
      requires i <= |q| && forall k | 0 <= k < |q| :: Due(q[k])
    {
      if i == 0 then (tx, st)
      else
        var (tx', st') := After(tx, st, q, i - 1);
        Step(tx', st', q[i - 1])
    }
  }

  function Bump(st: RefreshStats, k: Kind): RefreshStats {
    match k
    case Same => st
    case Added => st.(added := st.added + 1)
    case Updated => st.(updated := st.updated + 1)
    case Hid => st.(hidden := st.hidden + 1)
    case Unhid => st.(unhidden := st.unhidden + 1)
    case Removed => st.(removed := st.removed + 1)
  }

  lemma AmongGrows(w: Work, done: set<string>, id: string, k: Kind)
    requires id !in done
    ensures |w.Among(done + {id}, k)| == |w.Among(done, k)| + if w.KindAt(id) == k then 1 else 0
  {
    assert w.Among(done + {id}, k) == w.Among(done, k) + if w.KindAt(id) == k then {id} else {};
  }

  lemma CountsGrow(w: Work, done: set<string>, id: string, st: RefreshStats)
    requires id !in done && w.Counts(done, st)
    ensures w.Counts(done + {id}, Bump(st, w.KindAt(id)))
  {
    AmongGrows(w, done, id, Added);
    AmongGrows(w, done, id, Updated);
    AmongGrows(w, done, id, Removed);
    AmongGrows(w, done, id, Hid);
    AmongGrows(w, done, id, Unhid);
  }

  lemma {:induction false} AfterFresh(w: Work, l: Log, st: RefreshStats, q: seq<string>, i: nat)
    requires i <= |q| && forall k | 0 <= k < |q| :: w.Due(q[k])
    requires w.Fresh(l)
    ensures w.Fresh(w.After(l, st, q, i).0)
  {
    if i > 0 {
      AfterFresh(w, l, st, q, i - 1);
    }
  }

  /** What the loop leaves in the row of one id x. */
  lemma {:induction false} AfterAt(w: Work, l: Log, st: RefreshStats, q: seq<string>, i: nat, x: string)
    requires Distinct(q) && i <= |q| && forall k | 0 <= k < |q| :: w.Due(q[k])
    ensures var l' := w.After(l, st, q, i).0;
            if x in Upto(q, i) && w.KindAt(x) != Same then
              x in l'.rows && l.head < l'.rows[x].rev <= l'.head && w.NextRow(x, l'.rows[x].rev, l'.rows[x])
            else
              (x in l'.rows <==> x in l.rows) && (x in l.rows ==> l'.rows[x] == l.rows[x])
  {
    if i > 0 {
      AfterAt(w, l, st, q, i - 1, x);
      AfterCounters(w, l, st, q, i - 1);
      UptoGrows(q, i - 1);
    }
  }

  lemma {:induction false} AfterCounts(w: Work, done: set<string>, l: Log, st: RefreshStats, q: seq<string>, i: nat)
    requires w.Counts(done, st) && Distinct(q) && i <= |q|
    requires forall k | 0 <= k < |q| :: w.Due(q[k]) && q[k] !in done
    ensures w.Counts(done + Upto(q, i), w.After(l, st, q, i).1)
  {
    if i == 0 {
      assert done + Upto(q, 0) == done;
    } else {
      AfterCounts(w, done, l, st, q, i - 1);
      UptoGrows(q, i - 1);
      assert done + Upto(q, i) == done + Upto(q, i - 1) + {q[i - 1]};
      var (tx, counted) := w.After(l, st, q, i - 1);
      StepCounts(w, done + Upto(q, i - 1), tx, counted, q[i - 1]);
    }
  }

  lemma StepCounts(w: Work, done: set<string>, tx: Log, st: RefreshStats, id: string)
    requires w.Due(id) && id !in done && w.Counts(done, st)
    ensures w.Counts(done + {id}, w.Step(tx, st, id).1)
  {
    CountsGrow(w, done, id, st);
  }

  /** The head rises exactly with the counters. */
  lemma {:induction false} AfterCounters(w: Work, l: Log, st: RefreshStats, q: seq<string>, i: nat)
    requires i <= |q| && forall k | 0 <= k < |q| :: w.Due(q[k])
    ensures var (l', st') := w.After(l, st, q, i);
            && l'.head - st'.Changed() == l.head - st.Changed() && l.head <= l'.head
            && st'.total == st.total && l'.epoch == l.epoch && l'.minRev == l.minRev
  {
    if i > 0 {
      AfterCounters(w, l, st, q, i - 1);
    }
  }

  lemma NothingRecorded(w: Work)
    requires Wf(w.base)
    ensures w.Fresh(w.base)
    ensures w.Counts({}, RefreshStats(|w.current|, 0, 0, 0, 0, 0, 0, 0))
  {
    assert forall id | id in w.base.rows :: RowOk(w.base, id);
    assert forall k :: w.Among({}, k) == {};
  }

  /** The live rows a listing no longer has. */
  function Vanished(w: Work): set<string> {
    set id | id in w.base.rows && id !in w.current && !w.base.rows[id].deleted
  }

  /** Every changed id is of exactly one kind. */
  lemma MovedByKind(w: Work, a: set<string>, u: set<string>, r: set<string>, h: set<string>, v: set<string>)
    requires a == OfKind(w.base.rows, w.current, w.hides, Added) &&
             u == OfKind(w.base.rows, w.current, w.hides, Updated)
    requires r == OfKind(w.base.rows, w.current, w.hides, Removed)
    requires h == OfKind(w.base.rows, w.current, w.hides, Hid) && v == OfKind(w.base.rows, w.current, w.hides, Unhid)
    ensures a !! u !! r !! h !! v
    ensures Moved(w.base.rows, w.current, w.hides) == a + u + r + h + v
  {
  }

  lemma FiveParts(a: set<string>, u: set<string>, r: set<string>, h: set<string>, v: set<string>)
    requires a !! u !! r !! h !! v
    ensures |a + u + r + h + v| == |a| + |u| + |r| + |h| + |v|
  {
  }

  lemma AllAmong(w: Work, k: Kind)
    requires k != Same
    ensures w.Among(w.current.Keys + Vanished(w), k) == OfKind(w.base.rows, w.current, w.hides, k)
  {
  }

  lemma AllExact(w: Work, st: RefreshStats)
    requires w.Counts(w.current.Keys + Vanished(w), st) && st.total == |w.current|
    ensures StatsExact(w.base, w.current, w.hides, st)
  {
    AllAmong(w, Added);
    AllAmong(w, Updated);
    AllAmong(w, Removed);
    AllAmong(w, Hid);
    AllAmong(w, Unhid);
  }

  lemma ExactSum(w: Work, st: RefreshStats)
    requires StatsExact(w.base, w.current, w.hides, st)
    ensures st.Changed() == |Moved(w.base.rows, w.current, w.hides)|
  {
    var a, u := OfKind(w.base.rows, w.current, w.hides, Added), OfKind(w.base.rows, w.current, w.hides, Updated);
    var r := OfKind(w.base.rows, w.current, w.hides, Removed);
    var h, v := OfKind(w.base.rows, w.current, w.hides, Hid), OfKind(w.base.rows, w.current, w.hides, Unhid);
    MovedByKind(w, a, u, r, h, v);
    FiveParts(a, u, r, h, v);
  }

  lemma AllCounted(w: Work, st: RefreshStats)
    requires w.Counts(w.current.Keys + Vanished(w), st) && st.total == |w.current|
    ensures StatsExact(w.base, w.current, w.hides, st) && st.Changed() == |Moved(w.base.rows, w.current, w.hides)|
  {
    AllExact(w, st);
    ExactSum(w, st);
  }

  /** The counters of a complete refresh, as the declarative classification gives them. */
  ghost predicate StatsExact(base: Log, current: map<string, Entry>, hides: set<string>, st: RefreshStats) {
    && st.total == |current|
    && st.added == |OfKind(base.rows, current, hides, Added)|
    && st.updated == |OfKind(base.rows, current, hides, Updated)|
    && st.removed == |OfKind(base.rows, current, hides, Removed)|
    && st.hidden == |OfKind(base.rows, current, hides, Hid)|
    && st.unhidden == |OfKind(base.rows, current, hides, Unhid)|
  }

  /** What it takes for the id to be counted as k, by what the log said of it and the listing. */
  ghost predicate CountsAs(rows: map<string, Row>, current: map<string, Entry>, hides: set<string>, id: string, k: Kind)
  {
    var live := id in rows && !rows[id].deleted;
    match k
    case Added => id in current && !live
    case Removed => live && id !in current
    case Hid => live && id in current && !rows[id].hidden && IsHidden(hides, current[id])
    case Unhid => live && id in current && rows[id].hidden && !IsHidden(hides, current[id])
    case Updated =>
      live && id in current && rows[id].hidden == IsHidden(hides, current[id]) && rows[id].entry != current[id]
    case Same => false
  }

  lemma KindCounts(base: Log, current: map<string, Entry>, hides: set<string>, k: Kind)
    requires Wf(base) && k != Same
    ensures forall id :: id in OfKind(base.rows, current, hides, k) <==> CountsAs(base.rows, current, hides, id, k)
  {
    forall id | id in base.rows ensures RowOk(base, id) {
    }
  }

  /** So each counter is the number of the ids it is named for. */
  lemma StatsSay(base: Log, current: map<string, Entry>, hides: set<string>, st: RefreshStats)
    returns (added: set<string>, updated: set<string>, removed: set<string>, hid: set<string>, unhid: set<string>)
    requires Wf(base) && StatsExact(base, current, hides, st)
    ensures st.added == |added| && forall id :: id in added <==> CountsAs(base.rows, current, hides, id, Added)
    ensures st.updated == |updated| && forall id :: id in updated <==> CountsAs(base.rows, current, hides, id, Updated)
    ensures st.removed == |removed| && forall id :: id in removed <==> CountsAs(base.rows, current, hides, id, Removed)
    ensures st.hidden == |hid| && forall id :: id in hid <==> CountsAs(base.rows, current, hides, id, Hid)
    ensures st.unhidden == |unhid| && forall id :: id in unhid <==> CountsAs(base.rows, current, hides, id, Unhid)
  {
    added, updated := OfKind(base.rows, current, hides, Added), OfKind(base.rows, current, hides, Updated);
    removed, hid := OfKind(base.rows, current, hides, Removed), OfKind(base.rows, current, hides, Hid);
    unhid := OfKind(base.rows, current, hides, Unhid);
    KindCounts(base, current, hides, Added);
    KindCounts(base, current, hides, Updated);
    KindCounts(base, current, hides, Removed);
    KindCounts(base, current, hides, Hid);
    KindCounts(base, current, hides, Unhid);
  }

  /** Collects expired tombstones in a transaction's working copy of the log. */
  method GcTombstones(l: Log, now: int) returns (l': Log, purged: nat)
    ensures Collected(l, now, l')
    ensures purged == |l.rows.Keys - l'.rows.Keys|
  {
    var maxRev: Option<int> := None;
    var rest := l.rows.Keys;
    while rest != {}
      invariant rest <= l.rows.Keys
      invariant maxRev.None? ==> forall id | id in l.rows.Keys - rest :: !Expired(l.rows[id], now)
      invariant maxRev.Some? ==> exists id :: id in l.rows && Expired(l.rows[id], now) && l.rows[id].rev == maxRev.value
      invariant maxRev.Some? ==> forall id | id in l.rows.Keys - rest && Expired(l.rows[id], now) ::
                  l.rows[id].rev <= maxRev.value
      decreases |rest|
    {
      var id :| id in rest;
      rest := rest - {id};
      if Expired(l.rows[id], now) && (maxRev.None? || maxRev.value < l.rows[id].rev) {
        maxRev := Some(l.rows[id].rev);
      }
    }
    if maxRev.None? {
      assert l.rows.Keys - l.rows.Keys == {};
      return l, 0;
    }
    l' := Log(l.epoch, l.head, maxRev.value, Retained(l.rows, maxRev.value));
    purged := |l.rows.Keys - l'.rows.Keys|;
  }

  /** The listing keyed by id. */
  method Deduplicated(entries: seq<Entry>) returns (current: map<string, Entry>)
    ensures current == LastWins(entries)
  {
    current := map[];
    for i := 0 to |entries|
      invariant current == LastWins(entries[..i])
    {
      assert entries[..i + 1][..i] == entries[..i];
      current := current[entries[i].globalID := entries[i]];
    }
    assert entries[..|entries|] == entries;
  }

  /** Records one listed item: a new revision under its kind's counter, unless nothing changed. */
  method RecordItem(w: Work, tx: Log, st: RefreshStats, id: string) returns (tx': Log, st': RefreshStats)
    requires id in w.current
    ensures (tx', st') == w.Step(tx, st, id)
  {
    var rows, e := w.base.rows, w.current[id];
    var hash := ContentHash(e);
    var isHid := IsHidden(w.hides, e);
    var live := id in rows && !rows[id].deleted;
    if live && rows[id].hash == hash && rows[id].hidden == isHid {
      return tx, st;
    }
    if live && !rows[id].hidden && isHid {
      st' := st.(hidden := st.hidden + 1);
    } else if live && rows[id].hidden && !isHid {
      st' := st.(unhidden := st.unhidden + 1);
    } else if live {
      st' := st.(updated := st.updated + 1);
    } else {
      st' := st.(added := st.added + 1);
    }
    var row := Row(e, hash, tx.head + 1, false, isHid, w.now);
    tx' := tx.(head := tx.head + 1, rows := tx.rows[id := row]);
  }

  /** First half of a refresh: every listed item that differs gets a new revision, in id order. */
  method RecordListed(w: Work) returns (tx: Log, st: RefreshStats, ids: seq<string>)
    ensures Sorts(ids, w.current.Keys)
    ensures (tx, st) == w.After(w.base, Zero(w), ids, |ids|)
  {
    var q := Sorted(w.current.Keys);
    ids := q;
    tx, st := w.base, RefreshStats(|w.current|, 0, 0, 0, 0, 0, 0, 0);
    for i := 0 to |q|
      invariant (tx, st) == w.After(w.base, Zero(w), q, i)
    {
      tx, st := RecordItem(w, tx, st, q[i]);
    }
  }

  /** Second half: every live row no longer listed becomes a tombstone under a new revision, in id order. */
  method RecordRemoved(w: Work, listed: Log, counted: RefreshStats)
    returns (tx: Log, st: RefreshStats, ids: seq<string>)
    ensures Sorts(ids, Vanished(w))
    ensures (tx, st) == w.After(listed, counted, ids, |ids|)
  {
    var q := Sorted(set id | id in w.base.rows && id !in w.current && !w.base.rows[id].deleted);
    ids := q;
    tx, st := listed, counted;
    for i := 0 to |q|
      invariant (tx, st) == w.After(listed, counted, q, i)
    {
      st := st.(removed := st.removed + 1);
      var row := w.base.rows[q[i]].(deleted := true, rev := tx.head + 1, updatedAt := w.now);
      tx := tx.(head := tx.head + 1, rows := tx.rows[q[i] := row]);
    }
  }

  function Zero(w: Work): RefreshStats {
    RefreshStats(|w.current|, 0, 0, 0, 0, 0, 0, 0)
  }

  /** The working copy after both halves of a refresh. */
  ghost function Relisting(w: Work, listedIds: seq<string>, removedIds: seq<string>): (Log, RefreshStats)
    requires Sorts(listedIds, w.current.Keys) && Sorts(removedIds, Vanished(w))
  {
    var (listed, counted) := w.After(w.base, Zero(w), listedIds, |listedIds|);
    w.After(listed, counted, removedIds, |removedIds|)
  }

  /** Both halves together record exactly the difference to the listing. */
  lemma BothHalves(w: Work, listedIds: seq<string>, removedIds: seq<string>)
    requires Wf(w.base) && Sorts(listedIds, w.current.Keys) && Sorts(removedIds, Vanished(w))
    ensures var (tx, st) := Relisting(w, listedIds, removedIds);
            && Relisted(w.base, w.current, w.hides, w.now, tx)
            && StatsExact(w.base, w.current, w.hides, st)
            && tx.head == w.base.head + st.Changed()
  {
    BothCounters(w, listedIds, removedIds);
    BothCounted(w, listedIds, removedIds);
    AllCounted(w, Relisting(w, listedIds, removedIds).1);
    BothRows(w, listedIds, removedIds);
  }

  lemma BothRows(w: Work, listedIds: seq<string>, removedIds: seq<string>)
    requires Wf(w.base) && Sorts(listedIds, w.current.Keys) && Sorts(removedIds, Vanished(w))
    ensures var tx := Relisting(w, listedIds, removedIds).0;
            && tx.rows.Keys == w.base.rows.Keys + w.current.Keys
            && forall x | x in tx.rows :: RowRelisted(w.base, w.current, w.hides, w.now, tx, x)
  {
    var tx := Relisting(w, listedIds, removedIds).0;
    forall x
      ensures x in tx.rows <==> x in w.base.rows.Keys + w.current.Keys
      ensures x in tx.rows ==> RowRelisted(w.base, w.current, w.hides, w.now, tx, x)
    {
      BothAt(w, listedIds, removedIds, x);
    }
  }

  lemma BothAt(w: Work, listedIds: seq<string>, removedIds: seq<string>, x: string)
    requires Wf(w.base) && Sorts(listedIds, w.current.Keys) && Sorts(removedIds, Vanished(w))
    ensures var tx := Relisting(w, listedIds, removedIds).0;
            && (x in tx.rows <==> x in w.base.rows.Keys + w.current.Keys)
            && (x in tx.rows ==> RowRelisted(w.base, w.current, w.hides, w.now, tx, x))
  {
    var (listed, counted) := w.After(w.base, Zero(w), listedIds, |listedIds|);
    UptoAll(listedIds, w.current.Keys);
    UptoAll(removedIds, Vanished(w));
    AfterCounters(w, w.base, Zero(w), listedIds, |listedIds|);
    AfterCounters(w, listed, counted, removedIds, |removedIds|);
    AfterAt(w, w.base, Zero(w), listedIds, |listedIds|, x);
    AfterAt(w, listed, counted, removedIds, |removedIds|, x);
  }

  lemma BothCounters(w: Work, listedIds: seq<string>, removedIds: seq<string>)
    requires Wf(w.base) && Sorts(listedIds, w.current.Keys) && Sorts(removedIds, Vanished(w))
    ensures var (tx, st) := Relisting(w, listedIds, removedIds);
            && tx.head == w.base.head + st.Changed() && st.total == |w.current|
            && tx.epoch == w.base.epoch && tx.minRev == w.base.minRev
            && w.Fresh(tx)
  {
    var (listed, counted) := w.After(w.base, Zero(w), listedIds, |listedIds|);
    NothingRecorded(w);
    AfterCounters(w, w.base, Zero(w), listedIds, |listedIds|);
    AfterCounters(w, listed, counted, removedIds, |removedIds|);
    AfterFresh(w, w.base, Zero(w), listedIds, |listedIds|);
    AfterFresh(w, listed, counted, removedIds, |removedIds|);
  }

  lemma BothCounted(w: Work, listedIds: seq<string>, removedIds: seq<string>)
    requires Wf(w.base) && Sorts(listedIds, w.current.Keys) && Sorts(removedIds, Vanished(w))
    ensures w.Counts(w.current.Keys + Vanished(w), Relisting(w, listedIds, removedIds).1)
  {
    var (listed, counted) := w.After(w.base, Zero(w), listedIds, |listedIds|);
    NothingRecorded(w);
    AfterCounts(w, {}, w.base, Zero(w), listedIds, |listedIds|);
    UptoAll(listedIds, w.current.Keys);
    assert {} + w.current.Keys == w.current.Keys;
    AfterCounts(w, w.current.Keys, listed, counted, removedIds, |removedIds|);
    UptoAll(removedIds, Vanished(w));
  }

  /** The ids of rows a refresh that ended in l collected: those it started from or wrote, and left out. */
  function Purged(base: Log, current: map<string, Entry>, l: Log): set<string> {
    base.rows.Keys + current.Keys - l.rows.Keys
  }

  /** A committed refresh from base to l, with every counter right. */
  ghost predicate Reported(base: Log, current: map<string, Entry>, hides: set<string>, now: int, l: Log,
                           st: RefreshStats) {
    && Refreshed(base, current, hides, now, l)
    && StatsExact(base, current, hides, st)
    && st.head == l.head == base.head + st.Changed()
    && st.purged == |Purged(base, current, l)|
  }

  /** A whole refresh of a transaction's working copy. */
  method Relist(w: Work) returns (l: Log, st: RefreshStats)
    requires Wf(w.base) && Keyed(w.current)
    ensures Wf(l) && Reported(w.base, w.current, w.hides, w.now, l, st)
  {
    var listed, counted, listedIds := RecordListed(w);
    var tx, found, removedIds := RecordRemoved(w, listed, counted);
    BothHalves(w, listedIds, removedIds);
    var collected, purged := GcTombstones(tx, w.now);
    l, st := collected, found.(purged := purged, head := tx.head);
    BothWf(w, tx, l);
    BothReported(w, tx, found, l, purged);
  }

  lemma PurgedAre(w: Work, tx: Log, l: Log)
    requires Relisted(w.base, w.current, w.hides, w.now, tx)
    ensures tx.rows.Keys - l.rows.Keys == Purged(w.base, w.current, l)
  {
    assert tx.rows.Keys == w.base.rows.Keys + w.current.Keys;
  }

  lemma BothReported(w: Work, tx: Log, found: RefreshStats, l: Log, purged: nat)
    requires Relisted(w.base, w.current, w.hides, w.now, tx) && Collected(tx, w.now, l)
    requires StatsExact(w.base, w.current, w.hides, found) && tx.head == w.base.head + found.Changed()
    requires purged == |tx.rows.Keys - l.rows.Keys|
    ensures Reported(w.base, w.current, w.hides, w.now, l, found.(purged := purged, head := tx.head))
  {
    PurgedAre(w, tx, l);
    SameHead(tx, w.now, l);
    StillExact(w, found, purged, tx.head);
  }

  lemma SameHead(tx: Log, now: int, l: Log)
    requires Collected(tx, now, l)
    ensures l.head == tx.head
  {
  }

  lemma StillExact(w: Work, found: RefreshStats, purged: nat, head: int)
    requires StatsExact(w.base, w.current, w.hides, found)
    ensures StatsExact(w.base, w.current, w.hides, found.(purged := purged, head := head))
  {
  }

  lemma BothWf(w: Work, tx: Log, l: Log)
    requires Wf(w.base) && Keyed(w.current)
    requires Relisted(w.base, w.current, w.hides, w.now, tx) && Collected(tx, w.now, l)
    ensures Wf(l)
  {
    RelistedKeepsWf(w.base, w.current, w.hides, w.now, tx);
    CollectedKeepsWf(tx, w.now, l);
  }

  /** The page made of the first changes after rev from, full unless it is the last. */
  function PageWith(l: Log, reset: bool, changes: seq<Change>, more: bool): Page
    requires more ==> changes != []
  {
    Page(l.epoch, l.head, if more then changes[|changes| - 1].rev else l.head, more, reset, changes)
  }

  lemma PageIs(l: Log, epoch: string, since: int, limit: nat, changes: seq<Change>, more: bool)
    requires Wf(l) && limit > 0
    requires Stands(l, Take(ByRev(l.rows, Following(l, Effective(l, epoch, since))), limit), changes)
    requires more <==> |ByRev(l.rows, Following(l, Effective(l, epoch, since)))| > limit
    ensures more ==> changes != []
    ensures PageWith(l, Unusable(l, epoch, since), changes, more) == PageOf(l, epoch, since, limit)
  {
    assert changes == PageOf(l, epoch, since, limit).changes;
  }

  class LocalCatalog {
    // local_catalog with the feed's settings, as of the last committed transaction.
    var log: Log
    // When the last refresh committed; None until the first one.
    var indexedAt: Option<int>
    // The keys in hidden_items.
    var hides: set<string>
    const strmDir: string

    ghost predicate Valid() reads this {
      Wf(log)
    }

    /** A node's first boot: an empty log under a new random epoch. */
    constructor (epoch: string, strmDir: string)
      ensures Valid() && log == Log(epoch, 0, 0, map[]) && indexedAt == None && hides == {} && this.strmDir == strmDir
    {
      this.log := Log(epoch, 0, 0, map[]);
      this.indexedAt := None;
      this.hides := {};
      this.strmDir := strmDir;
    }

    /**
      Records every difference between the listing (None: Jellyfin failed) and the
      snapshot as new revisions and collects tombstones, all in one transaction,
      which may fail to commit.
     */
    method Refresh(listing: Option<seq<CatalogItem>>, now: int, commits: bool) returns (r: Option<RefreshStats>)
      requires Valid()
      modifies this`log, this`indexedAt
      ensures Valid()
      ensures r.Some? <==> listing.Some? && commits
      ensures r.None? ==> log == old(log) && indexedAt == old(indexedAt)
      ensures r.Some? ==>
                var current := LastWins(RealEntries(listing.value, strmDir, |listing.value|));
                Reported(old(log), current, hides, now, log, r.value) && indexedAt == Some(now)
    {
      if listing.None? {
        return None;
      }
      var entries := LocalEntries(listing.value, strmDir);
      var current := Deduplicated(entries);
      var relisted, st := Relist(Work(log, current, hides, now));
      if !commits {
        return None;
      }
      log := relisted;
      indexedAt := Some(now);
      r := Some(st);
    }

    /** Refreshes only if no refresh has ever committed. */
    method EnsureIndexed(listing: Option<seq<CatalogItem>>, now: int, commits: bool) returns (ok: bool)
      requires Valid()
      modifies this`log, this`indexedAt
      ensures Valid()
      ensures ok <==> old(indexedAt).Some? || (listing.Some? && commits)
      ensures ok <==> indexedAt.Some?
      ensures old(indexedAt).Some? || !ok ==> log == old(log) && indexedAt == old(indexedAt)
      ensures old(indexedAt).None? && ok ==>
                && listing.Some?
                && Refreshed(old(log), LastWins(RealEntries(listing.value, strmDir, |listing.value|)), hides, now, log)
    {
      if indexedAt.Some? {
        return true;
      }
      var r := Refresh(listing, now, commits);
      ok := r.Some?;
    }

    /** Serves one page: up to limit changes after rev since, oldest first. */
    method Changes(epoch: string, since: int, limit: nat) returns (page: Page)
      requires Valid() && limit > 0
      ensures page == PageOf(log, epoch, since, limit)
      ensures page.reset <==>
                || epoch == "" || epoch != log.epoch || since < 0 || since > log.head
                || (since > 0 && since < log.minRev)
      ensures |page.changes| <= limit && page.epoch == log.epoch && page.head == log.head
    {
      var l := log;
      var reset := epoch == "" || epoch != l.epoch || since < 0 || since > l.head || (since > 0 && since < l.minRev);
      var from := if reset then 0 else since;
      var matching := set id | id in l.rows && l.rows[id].rev > from &&
                               (from == 0 ==> !l.rows[id].deleted && !l.rows[id].hidden);
      assert matching == Following(l, from);
      var changes, more := FirstRows(l, matching, limit);
      PageIs(l, epoch, since, limit, changes, more);
      PageFields(l, epoch, since, limit);
      page := PageWith(l, reset, changes, more);
    }

    /** Everything currently offered, ordered by id, for the full-catalog endpoint. */
    method Entries() returns (entries: seq<Entry>)
      requires Valid()
      ensures |entries| == |Offered(log)|
      ensures forall i | 0 <= i < |entries| ::
                entries[i].globalID in Offered(log) && entries[i] == Offered(log)[entries[i].globalID]
      ensures forall i, j | 0 <= i < j < |entries| :: Less(entries[i].globalID, entries[j].globalID)
    {
      var offered := Offered(log);
      var ids := Sorted(offered.Keys);
      assert forall i | 0 <= i < |ids| :: ids[i] in offered && RowOk(log, ids[i]);
      entries := seq(|ids|, i requires 0 <= i < |ids| && ids[i] in offered => offered[ids[i]]);
      SortsSize(ids, offered.Keys);
      assert forall i | 0 <= i < |ids| :: entries[i].globalID == ids[i];
    }
  }

  /** changes stand for the rows ids, in order. */
  ghost predicate Stands(l: Log, ids: seq<string>, changes: seq<Change>) {
    && |changes| == |ids|
    && forall i | 0 <= i < |ids| :: ids[i] in l.rows && changes[i] == ChangeOf(ids[i], l.rows[ids[i]])
  }

  /** The page so far: changes for the ids taken, and rest still to come in revision order. */
  ghost predicate SoFar(l: Log, matching: set<string>, rest: set<string>, taken: seq<string>, changes: seq<Change>) {
    && rest <= matching <= l.rows.Keys
    && Stands(l, taken, changes)
    && ByRev(l.rows, matching) == taken + ByRev(l.rows, rest)
  }

  /** The least recent of rest is next in the order. */
  lemma NextInOrder(l: Log, matching: set<string>, rest: set<string>, taken: seq<string>, changes: seq<Change>,
                    id: string)
    requires Wf(l) && SoFar(l, matching, rest, taken, changes) && Oldest(l.rows, rest, id)
    ensures SoFar(l, matching, rest - {id}, taken + [id], changes + [ChangeOf(id, l.rows[id])])
  {
    OldestUnique(l, rest, id, ByRev(l.rows, rest)[0]);
    assert ByRev(l.rows, rest) == [id] + ByRev(l.rows, rest - {id});
    assert ByRev(l.rows, matching) == (taken + [id]) + ByRev(l.rows, rest - {id});
  }

  /** When the loop stops, its changes are the first rows in order. */
  lemma TakenInOrder(l: Log, matching: set<string>, rest: set<string>, taken: seq<string>, changes: seq<Change>,
                     limit: nat)
    requires SoFar(l, matching, rest, taken, changes) && |taken| <= limit && (rest != {} ==> |taken| == limit)
    ensures Stands(l, Take(ByRev(l.rows, matching), limit), changes)
    ensures rest != {} <==> |ByRev(l.rows, matching)| > limit
  {
    if rest == {} {
      assert taken == ByRev(l.rows, matching);
    }
    assert Take(ByRev(l.rows, matching), limit) == taken;
  }

  /** The row of ids with the smallest revision. */
  method OldestOf(rows: map<string, Row>, ids: set<string>) returns (id: string)
    requires ids <= rows.Keys && ids != {}
    ensures Oldest(rows, ids, id)
  {
    OldestExists(rows, ids);
    id :| id in ids && forall j | j in ids :: rows[id].rev <= rows[j].rev;
  }

  /** The oldest limit of the matching rows as changes, and whether any row is left over. */
  method FirstRows(l: Log, matching: set<string>, limit: nat) returns (changes: seq<Change>, more: bool)
    requires Wf(l) && matching <= l.rows.Keys && limit > 0
    ensures Stands(l, Take(ByRev(l.rows, matching), limit), changes)
    ensures more <==> |ByRev(l.rows, matching)| > limit
  {
    var rest := matching;
    ghost var taken: seq<string> := [];
    changes, more := [], false;
    while rest != {} && !more
      invariant SoFar(l, matching, rest, taken, changes)
      invariant |taken| <= limit && (more ==> rest != {} && |taken| == limit)
      decreases |rest|, !more
    {
      if |changes| == limit {
        more := true;
      } else {
        var id := OldestOf(l.rows, rest);
        NextInOrder(l, matching, rest, taken, changes, id);
        changes := changes + [ChangeOf(id, l.rows[id])];
        assert |rest - {id}| < |rest|;
        rest := rest - {id};
        taken := taken + [id];
      }
    }
    TakenInOrder(l, matching, rest, taken, changes, limit);
  }

  lemma OldestUnique(l: Log, ids: set<string>, a: string, b: string)
    requires Wf(l) && ids <= l.rows.Keys && Oldest(l.rows, ids, a) && Oldest(l.rows, ids, b)
    ensures a == b
  {
  }
}
