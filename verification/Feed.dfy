/**
  The provider side of the change feed: the revisioned catalog log of one node
  (internal/catalog/index.go). This module holds the values and what a refresh,
  a tombstone collection and a feed page mean; the class that executes them is
  in LocalIndex.dfy.
 */
module Feed {
  import opened Wrappers
  import opened Entries

  // Seconds a removal stays in the feed.
  const TOMBSTONE_TTL: int := 30 * 24 * 3600

  /** The content digest of an entry. A free constructor: digests never collide. */
  datatype Digest = ContentHash(raw: Entry)

  /** One row of local_catalog. */
  datatype Row = Row(entry: Entry, hash: Digest, rev: int, deleted: bool, hidden: bool, updatedAt: int)

  /** local_catalog with the feed's settings: epoch, head and min rev. */
  datatype Log = Log(epoch: string, head: int, minRev: int, rows: map<string, Row>)

  predicate Visible(r: Row) {
    !r.deleted && !r.hidden
  }

  predicate Offers(l: Log, id: string) {
    id in l.rows && Visible(l.rows[id])
  }

  /** What the full-catalog endpoint lists: the rows neither deleted nor hidden. */
  function Offered(l: Log): map<string, Entry> {
    map id | id in l.rows && Visible(l.rows[id]) :: l.rows[id].entry
  }

  ghost predicate RowOk(l: Log, id: string)
    requires id in l.rows
  {
    && 1 <= l.rows[id].rev <= l.head
    && l.rows[id].entry.globalID == id
    && l.rows[id].hash == ContentHash(l.rows[id].entry)
    && (l.rows[id].deleted ==> l.minRev < l.rows[id].rev)
  }

  /** The invariant every refresh keeps: revs distinct in 1..head, tombstones above min rev. */
  ghost predicate Wf(l: Log) {
    && 0 <= l.minRev <= l.head
    && (forall id | id in l.rows :: RowOk(l, id))
    && (forall a, b | a in l.rows && b in l.rows && a != b :: l.rows[a].rev != l.rows[b].rev)
  }

  // ---------------------------------------------------------------- refresh

  /** What a refresh finds about one id. */
  datatype Kind = Same | Added | Updated | Hid | Unhid | Removed

  predicate Live(rows: map<string, Row>, id: string) {
    id in rows && !rows[id].deleted
  }

  function KindOf(rows: map<string, Row>, current: map<string, Entry>, hides: set<string>, id: string): Kind {
    if id in current then
      var isHid := IsHidden(hides, current[id]);
      if !Live(rows, id) then Added
      else if rows[id].hash == ContentHash(current[id]) && rows[id].hidden == isHid then Same
      else if !rows[id].hidden && isHid then Hid
      else if rows[id].hidden && !isHid then Unhid
      else Updated
    else if Live(rows, id) then Removed
    else Same
  }

  /** Ids of one kind, and all ids that get a new revision. */
  function OfKind(rows: map<string, Row>, current: map<string, Entry>, hides: set<string>, k: Kind): set<string> {
    set id | id in rows.Keys + current.Keys && KindOf(rows, current, hides, id) == k
  }

  function Moved(rows: map<string, Row>, current: map<string, Entry>, hides: set<string>): set<string> {
    set id | id in rows.Keys + current.Keys && KindOf(rows, current, hides, id) != Same
  }

  /** A row of a listed item, as (re)written with revision rev at time now. */
  function Listed(e: Entry, hides: set<string>, rev: int, now: int): Row {
    Row(e, ContentHash(e), rev, false, IsHidden(hides, e), now)
  }

  /** How one row of the refreshed log relates to the old log. */
  ghost predicate RowRelisted(before: Log, current: map<string, Entry>, hides: set<string>, now: int, l: Log,
                              id: string)
    requires id in l.rows
  {
    match KindOf(before.rows, current, hides, id)
    case Same => id in before.rows && l.rows[id] == before.rows[id]
    case Removed =>
      && id in before.rows
      && before.head < l.rows[id].rev <= l.head
      && l.rows[id] == before.rows[id].(deleted := true, rev := l.rows[id].rev, updatedAt := now)
    case _ =>
      && id in current
      && before.head < l.rows[id].rev <= l.head
      && l.rows[id] == Listed(current[id], hides, l.rows[id].rev, now)
  }

  /** l is before after recording every difference to the listing as a new revision. */
  ghost predicate Relisted(before: Log, current: map<string, Entry>, hides: set<string>, now: int, l: Log) {
    && l.epoch == before.epoch
    && l.minRev == before.minRev
    && l.rows.Keys == before.rows.Keys + current.Keys
    && l.head == before.head + |Moved(before.rows, current, hides)|
    && (forall id | id in l.rows :: RowRelisted(before, current, hides, now, l, id))
    && (forall a, b | a in l.rows && b in l.rows && a != b && before.head < l.rows[a].rev ::
        l.rows[a].rev != l.rows[b].rev)
  }

  predicate Expired(r: Row, now: int) {
    r.deleted && r.updatedAt < now - TOMBSTONE_TTL
  }

  function Retained(rows: map<string, Row>, floor: int): map<string, Row> {
    map id | id in rows && !(rows[id].deleted && rows[id].rev <= floor) :: rows[id]
  }

  /** l is before after collecting tombstones at time now. */
  ghost predicate Collected(before: Log, now: int, l: Log) {
    if forall id | id in before.rows :: !Expired(before.rows[id], now) then
      l == before
    else
      && l == Log(before.epoch, before.head, l.minRev, Retained(before.rows, l.minRev))
      && (exists id :: id in before.rows && Expired(before.rows[id], now) && before.rows[id].rev == l.minRev)
      && (forall id | id in before.rows && Expired(before.rows[id], now) :: before.rows[id].rev <= l.minRev)
  }

  /** One committed refresh: the listing recorded, then tombstones collected. */
  ghost predicate Refreshed(before: Log, current: map<string, Entry>, hides: set<string>, now: int, l: Log) {
    exists mid :: Relisted(before, current, hides, now, mid) && Collected(mid, now, l)
  }

  ghost predicate Keyed(current: map<string, Entry>) {
    forall id | id in current :: current[id].globalID == id
  }

  /** Every refresh keeps the log well formed. */
  lemma RelistedKeepsWf(before: Log, current: map<string, Entry>, hides: set<string>, now: int, l: Log)
    requires Wf(before) && Keyed(current) && Relisted(before, current, hides, now, l)
    ensures Wf(l)
  {
    forall id | id in l.rows ensures RowOk(l, id) {
      assert RowRelisted(before, current, hides, now, l, id);
      assert id in before.rows ==> RowOk(before, id);
    }
    forall a, b | a in l.rows && b in l.rows && a != b ensures l.rows[a].rev != l.rows[b].rev {
      assert RowRelisted(before, current, hides, now, l, a) && RowRelisted(before, current, hides, now, l, b);
      if l.rows[a].rev <= before.head && l.rows[b].rev <= before.head {
        assert a in before.rows && b in before.rows;
      }
    }
  }

  lemma CollectedKeepsWf(before: Log, now: int, l: Log)
    requires Wf(before) && Collected(before, now, l)
    ensures Wf(l) && before.minRev <= l.minRev
    ensures l != before ==> before.minRev < l.minRev
  {
    if l != before {
      var w :| w in before.rows && Expired(before.rows[w], now) && before.rows[w].rev == l.minRev;
      assert RowOk(before, w);
      forall id | id in l.rows ensures RowOk(l, id) {
        assert RowOk(before, id);
      }
    }
  }

  /** The row says what the listing and the hides say about id. */
  ghost predicate Reflects(rows: map<string, Row>, current: map<string, Entry>, hides: set<string>, id: string) {
    if id in current then
      Live(rows, id) && rows[id].entry == current[id] && rows[id].hidden == IsHidden(hides, current[id])
    else
      !Live(rows, id)
  }

  lemma RelistedAt(before: Log, current: map<string, Entry>, hides: set<string>, now: int, l: Log, id: string)
    requires Wf(before) && Relisted(before, current, hides, now, l)
    ensures Reflects(l.rows, current, hides, id)
  {
    if id in l.rows {
      assert id in before.rows ==> RowOk(before, id);
      if id in current {
        ListedReflects(before, current, hides, now, l, id);
      } else {
        UnlistedReflects(before, current, hides, now, l, id);
      }
    }
  }

  lemma ListedReflects(before: Log, current: map<string, Entry>, hides: set<string>, now: int, l: Log, id: string)
    requires id in l.rows && RowRelisted(before, current, hides, now, l, id) && id in current
    requires id in before.rows ==> before.rows[id].hash == ContentHash(before.rows[id].entry)
    ensures Reflects(l.rows, current, hides, id)
  {
  }

  lemma UnlistedReflects(before: Log, current: map<string, Entry>, hides: set<string>, now: int, l: Log, id: string)
    requires id in l.rows && RowRelisted(before, current, hides, now, l, id) && id !in current
    ensures Reflects(l.rows, current, hides, id)
  {
  }

  /**
    After a refresh the live rows are exactly the deduplicated listing with the
    current hidden flags, so what peers are offered is the listing minus the hides.
   */
  lemma RefreshExact(before: Log, current: map<string, Entry>, hides: set<string>, now: int, l: Log)
    requires Wf(before) && Refreshed(before, current, hides, now, l)
    ensures forall id :: Reflects(l.rows, current, hides, id)
    ensures Offered(l) == map id | id in current && !IsHidden(hides, current[id]) :: current[id]
  {
    var mid :| Relisted(before, current, hides, now, mid) && Collected(mid, now, l);
    forall id ensures Reflects(l.rows, current, hides, id) {
      RelistedAt(before, current, hides, now, mid, id);
      LiveKept(mid, now, l, id);
    }
    OfferedReflects(l, current, hides);
  }

  /** Collecting tombstones leaves every live row alone. */
  lemma LiveKept(mid: Log, now: int, l: Log, id: string)
    requires Collected(mid, now, l)
    ensures Live(l.rows, id) == Live(mid.rows, id) && (Live(l.rows, id) ==> l.rows[id] == mid.rows[id])
  {
  }

  lemma OfferedReflects(l: Log, current: map<string, Entry>, hides: set<string>)
    requires forall id :: Reflects(l.rows, current, hides, id)
    ensures Offered(l) == map id | id in current && !IsHidden(hides, current[id]) :: current[id]
  {
    forall id ensures id in Offered(l) <==> id in current && !IsHidden(hides, current[id]) {
      assert Reflects(l.rows, current, hides, id);
    }
    forall id | id in Offered(l) ensures Offered(l)[id] == current[id] {
      assert Reflects(l.rows, current, hides, id);
    }
  }

  lemma SameReflects(before: Log, current: map<string, Entry>, hides: set<string>, id: string)
    requires Wf(before)
    ensures KindOf(before.rows, current, hides, id) == Same <==> Reflects(before.rows, current, hides, id)
  {
    assert id in before.rows ==> RowOk(before, id);
  }

  /** A refresh moves the head exactly when the listing or the hides changed; otherwise no revision moves. */
  lemma RefreshIdle(before: Log, current: map<string, Entry>, hides: set<string>, now: int, l: Log)
    requires Wf(before) && Refreshed(before, current, hides, now, l)
    ensures l.head == before.head <==> forall id :: Reflects(before.rows, current, hides, id)
    ensures l.head == before.head ==> forall id | id in l.rows :: id in before.rows && l.rows[id] == before.rows[id]
  {
    MovedIffStale(before, current, hides);
    var mid :| Relisted(before, current, hides, now, mid) && Collected(mid, now, l);
    HeadStays(before, current, hides, now, mid);
    RowsKept(mid, now, l);
    if Moved(before.rows, current, hides) == {} {
      NothingMoved(before, current, hides, now, mid);
    }
  }

  lemma HeadStays(before: Log, current: map<string, Entry>, hides: set<string>, now: int, mid: Log)
    requires Relisted(before, current, hides, now, mid)
    ensures mid.head == before.head <==> Moved(before.rows, current, hides) == {}
  {
  }

  /** Collecting tombstones only drops rows. */
  lemma RowsKept(mid: Log, now: int, l: Log)
    requires Collected(mid, now, l)
    ensures l.head == mid.head && forall id | id in l.rows :: id in mid.rows && l.rows[id] == mid.rows[id]
  {
  }

  lemma MovedIffStale(before: Log, current: map<string, Entry>, hides: set<string>)
    requires Wf(before)
    ensures Moved(before.rows, current, hides) == {} <==> forall id :: Reflects(before.rows, current, hides, id)
  {
    var moved := Moved(before.rows, current, hides);
    if moved == {} {
      forall id ensures Reflects(before.rows, current, hides, id) {
        SameReflects(before, current, hides, id);
        assert id !in moved;
      }
    } else {
      var id :| id in moved;
      SameReflects(before, current, hides, id);
    }
  }

  lemma NothingMoved(before: Log, current: map<string, Entry>, hides: set<string>, now: int, l: Log)
    requires Relisted(before, current, hides, now, l) && Moved(before.rows, current, hides) == {}
    ensures l.head == before.head && forall id | id in l.rows :: id in before.rows && l.rows[id] == before.rows[id]
  {
    forall id | id in l.rows ensures id in before.rows && l.rows[id] == before.rows[id] {
      assert id !in Moved(before.rows, current, hides) && RowRelisted(before, current, hides, now, l, id);
    }
  }

  // ------------------------------------------------------------------ pages

  /** One entry of the feed: an item's entry, or a tombstone. */
  datatype Change = Change(rev: int, globalID: string, deleted: bool, entry: Option<Entry>)

  /** One page of the feed. */
  datatype Page = Page(epoch: string, head: int, next: int, more: bool, reset: bool, changes: seq<Change>)

  /** The cursor (epoch, since) cannot be followed and the page restarts from the beginning. */
  predicate Unusable(l: Log, epoch: string, since: int) {
    epoch == "" || epoch != l.epoch || since < 0 || since > l.head || (since > 0 && since < l.minRev)
  }

  /** The revision the page is really served from. */
  function Effective(l: Log, epoch: string, since: int): int {
    if Unusable(l, epoch, since) then 0 else since
  }

  /** The row belongs to the feed after rev since; from scratch only visible rows do. */
  predicate Follows(r: Row, since: int) {
    r.rev > since && (since == 0 ==> Visible(r))
  }

  function Following(l: Log, since: int): set<string> {
    set id | id in l.rows && Follows(l.rows[id], since)
  }

  function ChangeOf(id: string, r: Row): Change {
    if Visible(r) then Change(r.rev, id, false, Some(r.entry)) else Change(r.rev, id, true, None)
  }

  ghost predicate Oldest(rows: map<string, Row>, ids: set<string>, id: string)
    requires ids <= rows.Keys
  {
    id in ids && forall j | j in ids :: rows[id].rev <= rows[j].rev
  }

  lemma OldestExists(rows: map<string, Row>, ids: set<string>)
    requires ids <= rows.Keys && ids != {}
    ensures exists id :: Oldest(rows, ids, id)
  {
    var x :| x in ids;
    if ids == {x} {
      assert Oldest(rows, ids, x);
    } else {
      OldestExists(rows, ids - {x});
      var y :| Oldest(rows, ids - {x}, y);
      assert Oldest(rows, ids, if rows[x].rev <= rows[y].rev then x else y);
    }
  }

  /** ids ordered by revision, oldest first. */
  ghost function ByRev(rows: map<string, Row>, ids: set<string>): seq<string>
    requires ids <= rows.Keys
    decreases |ids|
  {
    if ids == {} then [] else
      OldestExists(rows, ids);
      var first :| Oldest(rows, ids, first);
      [first] + ByRev(rows, ids - {first})
  }

  ghost function Take(q: seq<string>, n: nat): seq<string> {
    q[..if |q| > n then n else |q|]
  }

  /** The page served for the cursor (epoch, since): at most limit changes, oldest first. */
  ghost function PageOf(l: Log, epoch: string, since: int, limit: nat): Page
    requires limit > 0
  {
    var from := Effective(l, epoch, since);
    var order := ByRev(l.rows, Following(l, from));
    ByRevExact(l.rows, Following(l, from));
    var ids := Take(order, limit);
    var more := |order| > limit;
    Page(l.epoch, l.head, if more then l.rows[ids[limit - 1]].rev else l.head, more, Unusable(l, epoch, since),
         seq(|ids|, i requires 0 <= i < |ids| => ChangeOf(ids[i], l.rows[ids[i]])))
  }

  /** q lists exactly ids, each once, never going back in revision. */
  ghost predicate Orders(rows: map<string, Row>, q: seq<string>, ids: set<string>) {
    && ids <= rows.Keys
    && |q| == |ids|
    && (forall i | 0 <= i < |q| :: q[i] in ids)
    && (forall id | id in ids :: exists i :: 0 <= i < |q| && q[i] == id)
    && (forall i, j | 0 <= i < j < |q| :: q[i] != q[j])
    && (forall i, j | 0 <= i < j < |q| :: rows[q[i]].rev <= rows[q[j]].rev)
  }

  lemma PrependOrders(rows: map<string, Row>, first: string, q: seq<string>, ids: set<string>)
    requires ids <= rows.Keys && Oldest(rows, ids, first) && Orders(rows, q, ids - {first})
    ensures Orders(rows, [first] + q, ids)
  {
    var r := [first] + q;
    assert forall i | 0 < i < |r| :: r[i] == q[i - 1];
    forall id | id in ids ensures exists i :: 0 <= i < |r| && r[i] == id {
      PrependHas(first, q, ids, id);
    }
  }

  lemma PrependHas(first: string, q: seq<string>, ids: set<string>, id: string)
    requires id in ids && forall x | x in ids - {first} :: exists i :: 0 <= i < |q| && q[i] == x
    ensures exists i :: 0 <= i < |[first] + q| && ([first] + q)[i] == id
  {
    var r := [first] + q;
    if id == first {
      assert r[0] == id;
    } else {
      assert id in ids - {first};
      var i :| 0 <= i < |q| && q[i] == id;
      assert r[i + 1] == id;
    }
  }

  lemma {:induction false} ByRevExact(rows: map<string, Row>, ids: set<string>)
    requires ids <= rows.Keys
    ensures Orders(rows, ByRev(rows, ids), ids)
    decreases |ids|
  {
    if ids == {} {
    } else {
      OldestExists(rows, ids);
      var q := ByRev(rows, ids);
      var first := q[0];
      ByRevExact(rows, ids - {first});
      PrependOrders(rows, first, q[1..], ids);
      assert q == [first] + q[1..];
    }
  }

  /** The rows a page served from rev from up to rev next stands for. */
  predicate InPage(l: Log, from: int, next: int, id: string) {
    id in l.rows && Follows(l.rows[id], from) && l.rows[id].rev <= next
  }

  /** The page's changes are exactly the rows it stands for, each once, oldest first. */
  ghost predicate Holds(l: Log, from: int, p: Page) {
    && (forall i | 0 <= i < |p.changes| ::
          && InPage(l, from, p.next, p.changes[i].globalID)
          && p.changes[i] == ChangeOf(p.changes[i].globalID, l.rows[p.changes[i].globalID]))
    && (forall id | InPage(l, from, p.next, id) :: exists i :: 0 <= i < |p.changes| && p.changes[i].globalID == id)
    && (forall i, j | 0 <= i < j < |p.changes| :: p.changes[i].rev < p.changes[j].rev)
  }

  /** In a full ordering, revisions are strictly increasing. */
  lemma OrderStrict(l: Log, from: int, q: seq<string>)
    requires Wf(l) && Orders(l.rows, q, Following(l, from))
    ensures forall i | 0 <= i < |q| :: q[i] in l.rows && Follows(l.rows[q[i]], from)
    ensures forall i, j | 0 <= i < j < |q| :: l.rows[q[i]].rev < l.rows[q[j]].rev
  {
    assert forall i | 0 <= i < |q| :: q[i] in Following(l, from);
  }

  /** ids are exactly the rows of the page served from rev from up to rev next, oldest first. */
  ghost predicate RowsOf(l: Log, from: int, next: int, ids: seq<string>) {
    && (forall i | 0 <= i < |ids| :: InPage(l, from, next, ids[i]))
    && (forall id | InPage(l, from, next, id) :: exists i :: 0 <= i < |ids| && ids[i] == id)
    && (forall i, j | 0 <= i < j < |ids| :: l.rows[ids[i]].rev < l.rows[ids[j]].rev)
  }

  /** The first n of the ordered rows are those up to the n-th's revision. */
  lemma PrefixRows(l: Log, from: int, q: seq<string>, n: nat, next: int)
    requires Wf(l) && Orders(l.rows, q, Following(l, from)) && n <= |q|
    requires forall i | 0 <= i < |q| :: q[i] in l.rows && Follows(l.rows[q[i]], from)
    requires forall i, j | 0 <= i < j < |q| :: l.rows[q[i]].rev < l.rows[q[j]].rev
    requires if n == |q| then next == l.head else n > 0 && next == l.rows[q[n - 1]].rev
    ensures RowsOf(l, from, next, q[..n])
  {
    var ids := q[..n];
    forall i | 0 <= i < n ensures InPage(l, from, next, ids[i]) {
      assert ids[i] == q[i] && RowOk(l, q[i]);
    }
    forall id | InPage(l, from, next, id) ensures exists i :: 0 <= i < n && ids[i] == id {
      assert id in Following(l, from);
      var i :| 0 <= i < |q| && q[i] == id;
      assert i < n && ids[i] == id;
    }
  }

  /** A page built from the rows ids holds what those rows are. */
  lemma PageRows(l: Log, from: int, ids: seq<string>, p: Page)
    requires RowsOf(l, from, p.next, ids) && |p.changes| == |ids|
    requires forall i | 0 <= i < |ids| :: ids[i] in l.rows && p.changes[i] == ChangeOf(ids[i], l.rows[ids[i]])
    ensures Holds(l, from, p)
  {
    forall id | InPage(l, from, p.next, id)
      ensures exists i :: 0 <= i < |p.changes| && p.changes[i].globalID == id
    {
      var i :| 0 <= i < |ids| && ids[i] == id;
      assert p.changes[i].globalID == id;
    }
  }

  /**
    A page holds exactly the rows that follow the effective cursor up to its next
    cursor; it has more exactly when more rows than limit follow, is then full and
    moves the cursor strictly forward, and otherwise reaches the head.
   */
  lemma PageExact(l: Log, epoch: string, since: int, limit: nat)
    requires Wf(l) && limit > 0
    ensures var p := PageOf(l, epoch, since, limit);
            var from := Effective(l, epoch, since);
            && Holds(l, from, p)
            && (p.more <==> |Following(l, from)| > limit)
            && (p.more ==> from < p.next <= l.head && |p.changes| == limit)
            && (!p.more ==> p.next == l.head)
  {
    PageHolds(l, epoch, since, limit);
    PageMoves(l, epoch, since, limit);
  }

  /**
    It mentions an item exactly if the item's row changed after the cursor, up to the page's next: one
    deleted or hidden as gone, and only if not from the beginning, any other with its entry.
   */
  lemma PageSays(l: Log, epoch: string, since: int, limit: nat, id: string)
    requires Wf(l) && limit > 0
    ensures var p := PageOf(l, epoch, since, limit);
            var from := if p.reset then 0 else since;
            && ((exists i :: 0 <= i < |p.changes| && p.changes[i].globalID == id) <==>
                  && id in l.rows && from < l.rows[id].rev <= p.next
                  && (from == 0 ==> !l.rows[id].deleted && !l.rows[id].hidden))
            && forall i | 0 <= i < |p.changes| && p.changes[i].globalID == id ::
                 id in l.rows && p.changes[i].rev == l.rows[id].rev &&
                 if l.rows[id].deleted || l.rows[id].hidden
                 then p.changes[i].deleted && p.changes[i].entry.None?
                 else !p.changes[i].deleted && p.changes[i].entry == Some(l.rows[id].entry)
  {
    PageExact(l, epoch, since, limit);
    var p, from := PageOf(l, epoch, since, limit), Effective(l, epoch, since);
    assert InPage(l, from, p.next, id) ==> exists i :: 0 <= i < |p.changes| && p.changes[i].globalID == id;
  }

  /** When a page restarts the feed, and what it says of the log. */
  lemma PageFields(l: Log, epoch: string, since: int, limit: nat)
    requires limit > 0
    ensures var p := PageOf(l, epoch, since, limit);
            && (p.reset <==> || epoch == "" || epoch != l.epoch || since < 0 || since > l.head
                             || (since > 0 && since < l.minRev))
            && |p.changes| <= limit && p.epoch == l.epoch && p.head == l.head
  {
  }

  lemma PageHolds(l: Log, epoch: string, since: int, limit: nat)
    requires Wf(l) && limit > 0
    ensures Holds(l, Effective(l, epoch, since), PageOf(l, epoch, since, limit))
  {
    var p := PageOf(l, epoch, since, limit);
    var from := Effective(l, epoch, since);
    var q := ByRev(l.rows, Following(l, from));
    assert RowsOf(l, from, p.next, Take(q, limit)) by {
      ByRevExact(l.rows, Following(l, from));
      OrderStrict(l, from, q);
      PrefixRows(l, from, q, |Take(q, limit)|, p.next);
    }
    PageRows(l, from, Take(q, limit), p);
  }

  lemma PageMoves(l: Log, epoch: string, since: int, limit: nat)
    requires Wf(l) && limit > 0
    ensures var p := PageOf(l, epoch, since, limit);
            var from := Effective(l, epoch, since);
            && (p.more <==> |Following(l, from)| > limit)
            && (p.more ==> from < p.next <= l.head && |p.changes| == limit)
            && (!p.more ==> p.next == l.head)
  {
    var from := Effective(l, epoch, since);
    var q := ByRev(l.rows, Following(l, from));
    ByRevExact(l.rows, Following(l, from));
    OrderStrict(l, from, q);
    if |q| > limit {
      assert RowOk(l, q[limit - 1]);
    }
  }

  // ---------------------------------------------------------------- history

  /** How one id may have changed between an earlier state s of a feed and a later one l. */
  ghost predicate RowEvolves(s: Log, l: Log, id: string) {
    if id in l.rows then
      l.rows[id].rev > s.head || (id in s.rows && l.rows[id] == s.rows[id])
    else
      id in s.rows ==> (s.rows[id].deleted && s.rows[id].rev <= l.minRev) || s.head < l.minRev
  }

  /** l is a later state of the same history as s. */
  ghost predicate Evolves(s: Log, l: Log) {
    && s.epoch == l.epoch
    && s.head <= l.head
    && s.minRev <= l.minRev
    && forall id :: RowEvolves(s, l, id)
  }

  lemma EvolvesTransitive(s: Log, m: Log, l: Log)
    requires Wf(s) && Wf(m) && Evolves(s, m) && Evolves(m, l)
    ensures Evolves(s, l)
  {
    forall id ensures RowEvolves(s, l, id) {
      assert RowEvolves(s, m, id) && RowEvolves(m, l, id);
    }
  }

  lemma RefreshEvolves(before: Log, current: map<string, Entry>, hides: set<string>, now: int, l: Log)
    requires Wf(before) && Keyed(current) && Refreshed(before, current, hides, now, l)
    ensures Wf(l) && Evolves(before, l)
  {
    var mid :| Relisted(before, current, hides, now, mid) && Collected(mid, now, l);
    RelistedKeepsWf(before, current, hides, now, mid);
    CollectedKeepsWf(mid, now, l);
    forall id ensures RowEvolves(before, l, id) {
      if id in mid.rows {
        assert RowRelisted(before, current, hides, now, mid, id);
      }
    }
  }
}
