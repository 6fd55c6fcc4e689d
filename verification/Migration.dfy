/**
  Renaming peers that still carry a UUID to ids made from their names
  (migrateUUIDIDs and renamePeerID, internal/peers/ids.go).
 */
module Migration {
  import opened Wrappers
  import opened Ids

  // ------------------------------------------------------------ one rename

  /** Rows keyed by peer a now keyed by b; what b had is dropped. */
  function Moved<T>(m: map<string, T>, a: string, b: string): map<string, T> {
    if a in m then (m - {a})[b := m[a]] else m - {b}
  }

  /** Traffic of a added to that of b. */
  function Summed(m: map<string, nat>, a: string, b: string): map<string, nat> {
    if a in m then (m - {a})[b := m[a] + if b in m then m[b] else 0] else m
  }

  function Repointed(m: map<string, string>, a: string, b: string): map<string, string> {
    map k | k in m :: if m[k] == a then b else m[k]
  }

  /** Every table with a peer id in it: content by peer, and the elected peer of each item. */
  datatype Tables<T> = Tables(
    peers: map<string, T>, mirrors: map<string, T>, cursors: map<string, T>, excluded: map<string, T>,
    bytesIn: map<string, nat>, bytesOut: map<string, nat>, elected: map<string, string>)

  function RenamedOne<T>(t: Tables<T>, a: string, b: string): Tables<T> {
    Tables(Moved(t.peers, a, b), Moved(t.mirrors, a, b), Moved(t.cursors, a, b), Moved(t.excluded, a, b),
           Summed(t.bytesIn, a, b), Summed(t.bytesOut, a, b), Repointed(t.elected, a, b))
  }

  // ----------------------------------------------------------- all renames

  /** New ids are distinct and none of them is renamed in turn. */
  ghost predicate Fresh(renames: map<string, string>) {
    && (forall a, b | a in renames && b in renames && a != b :: renames[a] != renames[b])
    && (forall a | a in renames :: renames[a] !in renames)
  }

  ghost predicate Target(renames: map<string, string>, k: string) {
    exists a :: a in renames && renames[a] == k
  }

  ghost predicate MovedAt<T>(m: map<string, T>, renames: map<string, string>, m': map<string, T>, k: string) {
    && (forall a | a in renames && renames[a] == k :: Get(m', k) == Get(m, a))
    && (!Target(renames, k) ==> Get(m', k) == if k in renames then None else Get(m, k))
  }

  function Plus(a: Option<nat>, b: Option<nat>): Option<nat> {
    if a.None? then b else Some(a.value + if b.Some? then b.value else 0)
  }

  ghost predicate SummedAt(m: map<string, nat>, renames: map<string, string>, m': map<string, nat>, k: string) {
    && (forall a | a in renames && renames[a] == k :: Get(m', k) == Plus(Get(m, a), Get(m, k)))
    && (!Target(renames, k) ==> Get(m', k) == if k in renames then None else Get(m, k))
  }

  ghost predicate MovedAll<T(!new)>(m: map<string, T>, renames: map<string, string>, m': map<string, T>) {
    forall k :: MovedAt(m, renames, m', k)
  }

  ghost predicate SummedAll(m: map<string, nat>, renames: map<string, string>, m': map<string, nat>) {
    forall k :: SummedAt(m, renames, m', k)
  }

  function RepointedAll(m: map<string, string>, renames: map<string, string>): map<string, string> {
    map k | k in m :: if m[k] in renames then renames[m[k]] else m[k]
  }

  /** t' is t with every id renamed at once. */
  ghost predicate RenamedAll<T(!new)>(t: Tables<T>, renames: map<string, string>, t': Tables<T>) {
    && MovedAll(t.peers, renames, t'.peers) && MovedAll(t.mirrors, renames, t'.mirrors)
    && MovedAll(t.cursors, renames, t'.cursors) && MovedAll(t.excluded, renames, t'.excluded)
    && SummedAll(t.bytesIn, renames, t'.bytesIn) && SummedAll(t.bytesOut, renames, t'.bytesOut)
    && t'.elected == RepointedAll(t.elected, renames)
  }

  /** a and b meet none of the renames. */
  ghost predicate Apart(renames: map<string, string>, a: string, b: string) {
    a != b && a !in renames && b !in renames && !Target(renames, a) && !Target(renames, b)
  }

  lemma TargetMore(renames: map<string, string>, a: string, b: string, k: string)
    requires a !in renames
    ensures Target(renames[a := b], k) <==> Target(renames, k) || k == b
  {
    var more := renames[a := b];
    assert a in more && more[a] == b;
    if c :| c in renames && renames[c] == k {
      assert c in more && more[c] == k;
    }
  }

  lemma MovedMore<T>(m: map<string, T>, renames: map<string, string>, m': map<string, T>, a: string, b: string,
                     k: string)
    requires Apart(renames, a, b) && MovedAt(m, renames, m', k) && MovedAt(m, renames, m', a)
    ensures MovedAt(m, renames[a := b], Moved(m', a, b), k)
  {
    TargetMore(renames, a, b, k);
  }

  lemma SummedMore(m: map<string, nat>, renames: map<string, string>, m': map<string, nat>, a: string, b: string,
                   k: string)
    requires Apart(renames, a, b) && SummedAt(m, renames, m', k) && SummedAt(m, renames, m', a)
    ensures SummedAt(m, renames[a := b], Summed(m', a, b), k)
  {
    TargetMore(renames, a, b, k);
  }

  lemma MovedAllMore<T(!new)>(m: map<string, T>, renames: map<string, string>, m': map<string, T>, a: string, b: string)
    requires Apart(renames, a, b) && MovedAll(m, renames, m')
    ensures MovedAll(m, renames[a := b], Moved(m', a, b))
  {
    var more, moved := renames[a := b], Moved(m', a, b);
    forall k ensures MovedAt(m, more, moved, k) {
      MovedMore(m, renames, m', a, b, k);
    }
  }

  lemma SummedAllMore(m: map<string, nat>, renames: map<string, string>, m': map<string, nat>, a: string, b: string)
    requires Apart(renames, a, b) && SummedAll(m, renames, m')
    ensures SummedAll(m, renames[a := b], Summed(m', a, b))
  {
    var more, summed := renames[a := b], Summed(m', a, b);
    forall k ensures SummedAt(m, more, summed, k) {
      SummedMore(m, renames, m', a, b, k);
    }
  }

  /** Renaming one more peer extends a simultaneous renaming. */
  lemma RenameMore<T(!new)>(t: Tables<T>, renames: map<string, string>, t': Tables<T>, a: string, b: string)
    requires Apart(renames, a, b) && RenamedAll(t, renames, t')
    ensures RenamedAll(t, renames[a := b], RenamedOne(t', a, b))
  {
    MovedAllMore(t.peers, renames, t'.peers, a, b);
    MovedAllMore(t.mirrors, renames, t'.mirrors, a, b);
    MovedAllMore(t.cursors, renames, t'.cursors, a, b);
    MovedAllMore(t.excluded, renames, t'.excluded, a, b);
    SummedAllMore(t.bytesIn, renames, t'.bytesIn, a, b);
    SummedAllMore(t.bytesOut, renames, t'.bytesOut, a, b);
    RepointMore(t.elected, renames, a, b);
  }

  lemma RepointMore(m: map<string, string>, renames: map<string, string>, a: string, b: string)
    requires Apart(renames, a, b)
    ensures Repointed(RepointedAll(m, renames), a, b) == RepointedAll(m, renames[a := b])
  {
    forall k | k in m && m[k] in renames ensures renames[m[k]] != a {
      assert !Target(renames, a);
    }
  }

  // --------------------------------------------------------------- traffic

  ghost function Total(m: map<string, nat>): nat {
    if m == map[] then 0
    else
      var k :| k in m;
      m[k] + Total(m - {k})
  }

  /** The total does not depend on which peer is counted first. */
  lemma {:induction false} TotalWithout(m: map<string, nat>, k: string)
    requires k in m
    ensures Total(m) == m[k] + Total(m - {k})
    decreases |m|
  {
    var j :| j in m && Total(m) == m[j] + Total(m - {j});
    if j != k {
      TotalWithout(m - {j}, k);
      TotalWithout(m - {k}, j);
      assert m - {j} - {k} == m - {k} - {j};
    }
  }

  /** Renaming a peer loses and invents no traffic. */
  lemma SummedKeepsTotal(m: map<string, nat>, a: string, b: string)
    requires a != b
    ensures Total(Summed(m, a, b)) == Total(m)
  {
    if a in m {
      var s := Summed(m, a, b);
      TotalWithout(m, a);
      TotalWithout(s, b);
      if b in m {
        TotalWithout(m - {a}, b);
        assert s - {b} == m - {a} - {b};
      } else {
        assert s - {b} == m - {a};
      }
    }
  }

  // ------------------------------------------------------------- migration

  datatype PeerRow = PeerRow(id: string, name: string)

  /** A peer with a UUID id whose name is known. */
  predicate Eligible(r: PeerRow, isUUID: string -> bool) {
    isUUID(r.id) && Slug(r.name) != ""
  }

  function OldIDs(rows: seq<PeerRow>): set<string> {
    set r | r in rows :: r.id
  }

  /** The new ids of the eligible rows before i. */
  ghost function NewIDs(rows: seq<PeerRow>, isUUID: string -> bool, renames: map<string, string>, i: nat)
    : (ids: set<string>)
    requires i <= |rows|
  {
    set j | 0 <= j < i && Eligible(rows[j], isUUID) && rows[j].id in renames :: renames[rows[j].id]
  }

  ghost predicate DistinctIDs(rows: seq<PeerRow>) {
    forall i, j | 0 <= i < j < |rows| :: rows[i].id != rows[j].id
  }

  /** Row i is renamed to the first id free of every old id and of the new ids of the rows added before it. */
  ghost predicate Assigned(rows: seq<PeerRow>, isUUID: string -> bool, renames: map<string, string>, i: nat)
    requires i < |rows|
  {
    Eligible(rows[i], isUUID) ==>
      rows[i].id in renames && FirstFree(Slug(rows[i].name), OldIDs(rows) + NewIDs(rows, isUUID, renames, i),
                                         renames[rows[i].id])
  }

  /** The renames chosen for the rows before i, and the ids then taken. */
  ghost predicate Chosen(rows: seq<PeerRow>, isUUID: string -> bool, renames: map<string, string>, taken: set<string>,
                         i: nat)
    requires i <= |rows|
  {
    && taken == OldIDs(rows) + NewIDs(rows, isUUID, renames, i)
    && (forall j: nat | j < i :: Assigned(rows, isUUID, renames, j))
    && (forall a | a in renames :: Source(rows, isUUID, a, i))
    && NewTargets(OldIDs(rows), renames, taken)
  }

  /** The new ids are taken, no old ids, and all different. */
  ghost predicate NewTargets(oldIDs: set<string>, renames: map<string, string>, taken: set<string>) {
    && (forall a | a in renames :: renames[a] !in oldIDs && renames[a] in taken)
    && (forall a, b | a in renames && b in renames && a != b :: renames[a] != renames[b])
  }

  lemma NewTargetsMore(oldIDs: set<string>, renames: map<string, string>, taken: set<string>, id: string, newID: string)
    requires NewTargets(oldIDs, renames, taken) && oldIDs <= taken && newID !in taken
    ensures NewTargets(oldIDs, renames[id := newID], taken + {newID})
  {
  }

  lemma NewIDsStable(rows: seq<PeerRow>, isUUID: string -> bool, renames: map<string, string>, i: nat, newID: string,
                     j: nat)
    requires DistinctIDs(rows) && j <= i < |rows|
    ensures NewIDs(rows, isUUID, renames[rows[i].id := newID], j) == NewIDs(rows, isUUID, renames, j)
  {
    var more := renames[rows[i].id := newID];
    assert forall k | 0 <= k < j :: rows[k].id != rows[i].id;
    assert forall k | 0 <= k < j && rows[k].id in more ::
          rows[k].id in renames && more[rows[k].id] == renames[rows[k].id];
    assert forall k | 0 <= k < j && rows[k].id in renames :: rows[k].id in more;
  }

  lemma NewIDsNext(rows: seq<PeerRow>, isUUID: string -> bool, renames: map<string, string>, i: nat)
    requires i < |rows|
    ensures NewIDs(rows, isUUID, renames, i + 1) ==
            NewIDs(rows, isUUID, renames, i) +
            if Eligible(rows[i], isUUID) && rows[i].id in renames then {renames[rows[i].id]} else {}
  {
  }

  lemma SkipRow(rows: seq<PeerRow>, isUUID: string -> bool, renames: map<string, string>, taken: set<string>, i: nat)
    requires i < |rows| && Chosen(rows, isUUID, renames, taken, i) && !Eligible(rows[i], isUUID)
    ensures Chosen(rows, isUUID, renames, taken, i + 1)
  {
    NewIDsNext(rows, isUUID, renames, i);
  }

  lemma NotYetChosen(rows: seq<PeerRow>, isUUID: string -> bool, renames: map<string, string>, taken: set<string>,
                     i: nat)
    requires DistinctIDs(rows) && i < |rows| && Chosen(rows, isUUID, renames, taken, i)
    ensures rows[i].id !in renames
  {
  }

  lemma AssignedEarlier(rows: seq<PeerRow>, isUUID: string -> bool, renames: map<string, string>, i: nat, newID: string,
                        j: nat)
    requires DistinctIDs(rows) && j < i < |rows| && Assigned(rows, isUUID, renames, j)
    ensures Assigned(rows, isUUID, renames[rows[i].id := newID], j)
  {
    NewIDsStable(rows, isUUID, renames, i, newID, j);
  }

  lemma AssignedNow(rows: seq<PeerRow>, isUUID: string -> bool, renames: map<string, string>, i: nat, newID: string)
    requires DistinctIDs(rows) && i < |rows|
    requires FirstFree(Slug(rows[i].name), OldIDs(rows) + NewIDs(rows, isUUID, renames, i), newID)
    ensures Assigned(rows, isUUID, renames[rows[i].id := newID], i)
  {
    NewIDsStable(rows, isUUID, renames, i, newID, i);
  }

  ghost predicate Source(rows: seq<PeerRow>, isUUID: string -> bool, a: string, i: nat)
    requires i <= |rows|
  {
    exists j: nat :: j < i && a == rows[j].id && Eligible(rows[j], isUUID)
  }

  lemma SourceMore(rows: seq<PeerRow>, isUUID: string -> bool, a: string, i: nat)
    requires i < |rows|
    ensures Source(rows, isUUID, a, i) || (a == rows[i].id && Eligible(rows[i], isUUID)) ==>
              Source(rows, isUUID, a, i + 1)
  {
  }

  lemma AllAssigned(rows: seq<PeerRow>, isUUID: string -> bool, renames: map<string, string>, i: nat, newID: string,
                    more: map<string, string>)
    requires DistinctIDs(rows) && i < |rows| && more == renames[rows[i].id := newID]
    requires forall j: nat | j < i :: Assigned(rows, isUUID, renames, j)
    requires FirstFree(Slug(rows[i].name), OldIDs(rows) + NewIDs(rows, isUUID, renames, i), newID)
    ensures forall j: nat | j <= i :: Assigned(rows, isUUID, more, j)
  {
    AssignedNow(rows, isUUID, renames, i, newID);
    forall j: nat | j < i ensures Assigned(rows, isUUID, more, j) {
      AssignedEarlier(rows, isUUID, renames, i, newID, j);
    }
  }

  lemma TakenMore(rows: seq<PeerRow>, isUUID: string -> bool, renames: map<string, string>, i: nat, newID: string)
    requires DistinctIDs(rows) && i < |rows| && Eligible(rows[i], isUUID)
    ensures OldIDs(rows) + NewIDs(rows, isUUID, renames, i) + {newID} ==
            OldIDs(rows) + NewIDs(rows, isUUID, renames[rows[i].id := newID], i + 1)
  {
    NewIDsNext(rows, isUUID, renames[rows[i].id := newID], i);
    NewIDsStable(rows, isUUID, renames, i, newID, i);
  }

  lemma RenameRow(rows: seq<PeerRow>, isUUID: string -> bool, renames: map<string, string>, taken: set<string>, i: nat,
                  newID: string)
    requires DistinctIDs(rows) && i < |rows| && Chosen(rows, isUUID, renames, taken, i) && Eligible(rows[i], isUUID)
    requires FirstFree(Slug(rows[i].name), taken, newID) && newID !in taken
    ensures Chosen(rows, isUUID, renames[rows[i].id := newID], taken + {newID}, i + 1)
  {
    var more := renames[rows[i].id := newID];
    NotYetChosen(rows, isUUID, renames, taken, i);
    TakenMore(rows, isUUID, renames, i, newID);
    NewTargetsMore(OldIDs(rows), renames, taken, rows[i].id, newID);
    AllAssigned(rows, isUUID, renames, i, newID, more);
    forall a | a in more ensures Source(rows, isUUID, a, i + 1) {
      SourceMore(rows, isUUID, a, i);
    }
  }

  lemma ChosenIsFresh(rows: seq<PeerRow>, isUUID: string -> bool, renames: map<string, string>, taken: set<string>)
    requires Chosen(rows, isUUID, renames, taken, |rows|)
    ensures Fresh(renames)
    ensures forall a | a in renames :: a in OldIDs(rows) && renames[a] !in OldIDs(rows)
  {
    forall a | a in renames ensures a in OldIDs(rows) {
      var j: nat :| j < |rows| && a == rows[j].id && Eligible(rows[j], isUUID);
    }
  }

  /**
    Picks the new ids, in the order the peers were added: all different, none of them
    any old id, and the first of several peers with one name gets the plain name.
   */
  method ChooseRenames(rows: seq<PeerRow>, isUUID: string -> bool) returns (renames: map<string, string>)
    requires DistinctIDs(rows)
    ensures forall i: nat | i < |rows| :: Assigned(rows, isUUID, renames, i)
    ensures forall i | 0 <= i < |rows| :: rows[i].id in renames <==> isUUID(rows[i].id) && Slug(rows[i].name) != ""
    ensures forall a | a in renames :: a in OldIDs(rows) && renames[a] !in OldIDs(rows)
    ensures Fresh(renames)
  {
    var taken := OldIDs(rows);
    renames := map[];
    for i := 0 to |rows|
      invariant Chosen(rows, isUUID, renames, taken, i)
    {
      var r := rows[i];
      if !isUUID(r.id) || Slug(r.name) == "" {
        SkipRow(rows, isUUID, renames, taken, i);
        continue;
      }
      var newID := IdFor(r.name, taken, "");
      RenameRow(rows, isUUID, renames, taken, i, newID);
      taken := taken + {newID};
      renames := renames[r.id := newID];
    }
    ChosenIsFresh(rows, isUUID, renames, taken);
    ChosenExactly(rows, isUUID, renames, taken);
  }

  lemma ChosenExactly(rows: seq<PeerRow>, isUUID: string -> bool, renames: map<string, string>, taken: set<string>)
    requires DistinctIDs(rows) && Chosen(rows, isUUID, renames, taken, |rows|)
    ensures forall i | 0 <= i < |rows| :: rows[i].id in renames <==> Eligible(rows[i], isUUID)
  {
    forall i | 0 <= i < |rows| ensures rows[i].id in renames <==> Eligible(rows[i], isUUID) {
      assert Assigned(rows, isUUID, renames, i);
      if rows[i].id in renames {
        var j: nat :| j < |rows| && rows[i].id == rows[j].id && Eligible(rows[j], isUUID);
        assert i == j;
      }
    }
  }

  lemma NextRename(renames: map<string, string>, rest: set<string>, a: string)
    requires Fresh(renames) && a in rest && a in renames
    ensures Apart(renames - rest, a, renames[a])
    ensures renames - (rest - {a}) == (renames - rest)[a := renames[a]]
  {
  }

  class PeerStore<T(!new)> {
    var tables: Tables<T>

    /** The renames, in any order, in one transaction: the outcome is that of renaming all at once. */
    method Apply(renames: map<string, string>) returns (ok: bool)
      requires Fresh(renames)
      modifies this
      ensures ok ==> RenamedAll(old(tables), renames, tables)
      ensures ok ==>
                && Total(tables.bytesIn) == Total(old(tables.bytesIn))
                && Total(tables.bytesOut) == Total(old(tables.bytesOut))
      ensures !ok ==> tables == old(tables)
    {
      if renames == map[] {
        return true;
      }
      var tx := tables;
      var rest := renames.Keys;
      assert renames - rest == map[];
      while rest != {}
        invariant rest <= renames.Keys && tables == old(tables)
        invariant RenamedAll(tables, renames - rest, tx)
        invariant Total(tx.bytesIn) == Total(tables.bytesIn) && Total(tx.bytesOut) == Total(tables.bytesOut)
        decreases |rest|
      {
        var a :| a in rest;
        NextRename(renames, rest, a);
        RenameMore(tables, renames - rest, tx, a, renames[a]);
        SummedKeepsTotal(tx.bytesIn, a, renames[a]);
        SummedKeepsTotal(tx.bytesOut, a, renames[a]);
        rest := rest - {a};
        tx := RenamedOne(tx, a, renames[a]);
      }
      assert renames - {} == renames;
      ok := *;
      if ok {
        tables := tx;
      }
    }
  }

  /** No renamed id is left anywhere, what each had is its new id's, and peers not renamed keep what they had. */
  lemma RenamedEverywhere<T(!new)>(t: Tables<T>, renames: map<string, string>, t': Tables<T>, a: string)
    requires Fresh(renames) && RenamedAll(t, renames, t') && a in renames
    ensures a !in t'.peers && a !in t'.mirrors && a !in t'.cursors && a !in t'.excluded
    ensures a !in t'.bytesIn && a !in t'.bytesOut && forall k | k in t'.elected :: t'.elected[k] != a
    ensures var b := renames[a];
            && Get(t'.peers, b) == Get(t.peers, a) && Get(t'.mirrors, b) == Get(t.mirrors, a)
            && Get(t'.cursors, b) == Get(t.cursors, a) && Get(t'.excluded, b) == Get(t.excluded, a)
            && (a in t.bytesIn ==> b in t'.bytesIn && t'.bytesIn[b] >= t.bytesIn[a])
            && (a in t.bytesOut ==> b in t'.bytesOut && t'.bytesOut[b] >= t.bytesOut[a])
            && forall k | k in t.elected && t.elected[k] == a :: k in t'.elected && t'.elected[k] == b
  {
    var b := renames[a];
    MovedAway(t.peers, renames, t'.peers, a);
    MovedAway(t.mirrors, renames, t'.mirrors, a);
    MovedAway(t.cursors, renames, t'.cursors, a);
    MovedAway(t.excluded, renames, t'.excluded, a);
    assert !Target(renames, a);
    assert SummedAt(t.bytesIn, renames, t'.bytesIn, a) && SummedAt(t.bytesIn, renames, t'.bytesIn, b);
    assert SummedAt(t.bytesOut, renames, t'.bytesOut, a) && SummedAt(t.bytesOut, renames, t'.bytesOut, b);
  }

  lemma MovedAway<T(!new)>(m: map<string, T>, renames: map<string, string>, m': map<string, T>, a: string)
    requires Fresh(renames) && MovedAll(m, renames, m') && a in renames
    ensures a !in m' && Get(m', renames[a]) == Get(m, a)
  {
    assert !Target(renames, a);
    assert MovedAt(m, renames, m', a) && MovedAt(m, renames, m', renames[a]);
  }

  /** There is only one outcome, so the order of the renames cannot matter. */
  lemma OneOutcome<T(!new)>(t: Tables<T>, renames: map<string, string>, x: Tables<T>, y: Tables<T>)
    requires RenamedAll(t, renames, x) && RenamedAll(t, renames, y)
    ensures x == y
  {
    OneMoved(t.peers, renames, x.peers, y.peers);
    OneMoved(t.mirrors, renames, x.mirrors, y.mirrors);
    OneMoved(t.cursors, renames, x.cursors, y.cursors);
    OneMoved(t.excluded, renames, x.excluded, y.excluded);
    OneSummed(t.bytesIn, renames, x.bytesIn, y.bytesIn);
    OneSummed(t.bytesOut, renames, x.bytesOut, y.bytesOut);
  }

  lemma OneMoved<T(!new)>(m: map<string, T>, renames: map<string, string>, x: map<string, T>, y: map<string, T>)
    requires MovedAll(m, renames, x) && MovedAll(m, renames, y)
    ensures x == y
  {
    forall k ensures Get(x, k) == Get(y, k) {
      assert MovedAt(m, renames, x, k) && MovedAt(m, renames, y, k);
      if a :| a in renames && renames[a] == k {
      }
    }
    SameMap(x, y);
  }

  lemma OneSummed(m: map<string, nat>, renames: map<string, string>, x: map<string, nat>, y: map<string, nat>)
    requires SummedAll(m, renames, x) && SummedAll(m, renames, y)
    ensures x == y
  {
    forall k ensures Get(x, k) == Get(y, k) {
      assert SummedAt(m, renames, x, k) && SummedAt(m, renames, y, k);
      if a :| a in renames && renames[a] == k {
      }
    }
    SameMap(x, y);
  }
}
