/**
  Which copy of each item this node uses (elect, internal/catalog/catalog.go): its
  own, else the smallest offering peer's, else one only folder exclusions hide.
 */
module Election {
  import opened Wrappers
  import opened Entries
  import opened Feed
  import opened Folders
  import opened Order

  /** The election-relevant content of one catalog_items row. */
  datatype ItemState = ItemState(
    name: string, mediaType: string, local: bool, localItemID: string, peerID: string, peerItemID: string,
    seriesGlobalID: string, seriesName: string, seasonNumber: int, episodeNumber: int,
    hidden: bool, path: string, hiddenFolder: bool)

  function StateFromEntry(e: Entry): ItemState {
    ItemState(e.name, e.mediaType, false, "", "", "", e.seriesGlobalID, e.seriesName, e.seasonNumber, e.episodeNumber,
              false, e.path, false)
  }

  /** The primary key of peer_catalog. */
  datatype OfferKey = OfferKey(peer: string, id: string)

  /** What the election reads: the local index, every mirror, and this node's settings. */
  datatype Ballot = Ballot(
    local: map<string, Row>, mirrors: map<OfferKey, Entry>, offering: set<string>,
    hides: set<string>, excluded: map<string, seq<string>>)
  {
    function FoldersOf(peer: string): seq<string> {
      if peer in excluded then excluded[peer] else []
    }

    predicate IsLocal(id: string) {
      Live(local, id)
    }

    /** peer is offering and has a copy of id. */
    predicate Has(peer: string, id: string) {
      peer in offering && OfferKey(peer, id) in mirrors
    }

    /** The copy lies under a folder excluded for its peer. */
    predicate Excluded(peer: string, id: string)
      requires OfferKey(peer, id) in mirrors
    {
      UnderAny(mirrors[OfferKey(peer, id)].path, FoldersOf(peer))
    }

    predicate HasGood(peer: string, id: string) {
      Has(peer, id) && !Excluded(peer, id)
    }

    function LocalState(id: string): ItemState
      requires IsLocal(id)
    {
      var e := local[id].entry;
      StateFromEntry(e).(local := true, localItemID := e.itemID, hidden := local[id].hidden)
    }

    function RemoteState(peer: string, id: string): ItemState
      requires OfferKey(peer, id) in mirrors
    {
      var e := mirrors[OfferKey(peer, id)];
      StateFromEntry(e).(peerID := peer, peerItemID := e.itemID, hidden := IsHidden(hides, e))
    }

    /** peer is the smallest for which p holds. */
    ghost predicate Smallest(p: string -> bool, peer: string) {
      p(peer) && forall q | p(q) && q != peer :: Less(peer, q)
    }

    /** The elected state of id: local first, then the smallest good copy, then the smallest excluded one. */
    ghost predicate Elects(id: string, st: ItemState) {
      if IsLocal(id) then st == LocalState(id)
      else if exists q :: HasGood(q, id) then
        exists peer :: Smallest(q => HasGood(q, id), peer) && st == RemoteState(peer, id)
      else
        exists peer :: Smallest(q => Has(q, id), peer) && st == RemoteState(peer, id).(hiddenFolder := true)
    }

    ghost predicate ListedBySome(id: string) {
      IsLocal(id) || exists peer :: Has(peer, id)
    }

    /** desired is the outcome of the election. */
    ghost predicate IsElection(desired: map<string, ItemState>) {
      && (forall id :: id in desired <==> ListedBySome(id))
      && (forall id | id in desired :: Elects(id, desired[id]))
    }

    /** The hide key of every item any source still has, offering or not. */
    function OfferedKeys(): set<string> {
      (set id | id in local && Live(local, id) :: HideKey(local[id].entry)) +
      (set k | k in mirrors :: HideKey(mirrors[k]))
    }
  }

  lemma SmallestUnique(b: Ballot, p: string -> bool, x: string, y: string)
    requires b.Smallest(p, x) && b.Smallest(p, y)
    ensures x == y
  {
    LessTotal(x, y);
  }

  /** The election has one outcome: every node reading the same ballot elects the same copies. */
  lemma ElectionUnique(b: Ballot, d1: map<string, ItemState>, d2: map<string, ItemState>)
    requires b.IsElection(d1) && b.IsElection(d2)
    ensures d1 == d2
  {
    forall id ensures id in d1 <==> id in d2 {
      assert id in d1 <==> b.ListedBySome(id);
      assert id in d2 <==> b.ListedBySome(id);
    }
    forall id | id in d1 ensures d1[id] == d2[id] {
      assert b.Elects(id, d1[id]) && b.Elects(id, d2[id]);
      if b.IsLocal(id) {
      } else if q :| b.HasGood(q, id) {
        var x :| b.Smallest(q => b.HasGood(q, id), x) && d1[id] == b.RemoteState(x, id);
        var y :| b.Smallest(q => b.HasGood(q, id), y) && d2[id] == b.RemoteState(y, id);
        SmallestUnique(b, q => b.HasGood(q, id), x, y);
      } else {
        var x :| b.Smallest(q => b.Has(q, id), x) && d1[id] == b.RemoteState(x, id).(hiddenFolder := true);
        var y :| b.Smallest(q => b.Has(q, id), y) && d2[id] == b.RemoteState(y, id).(hiddenFolder := true);
        SmallestUnique(b, q => b.Has(q, id), x, y);
      }
    }
  }

  // ------------------------------------------------------------ the election

  /** Query order: by id, then by peer. */
  predicate Before(a: OfferKey, b: OfferKey) {
    Less(a.id, b.id) || (a.id == b.id && Less(a.peer, b.peer))
  }

  /** rows lists the mirror rows keys, in query order. */
  ghost predicate QueryResult(rows: seq<OfferKey>, keys: set<OfferKey>) {
    && (forall i | 0 <= i < |rows| :: rows[i] in keys)
    && (forall k | k in keys :: k in rows)
    && (forall i, j | 0 <= i < j < |rows| :: Before(rows[i], rows[j]))
  }

  lemma BeforeTransitive(a: OfferKey, b: OfferKey, c: OfferKey)
    requires Before(a, b) && Before(b, c)
    ensures Before(a, c)
  {
    if Less(a.id, b.id) && Less(b.id, c.id) {
      LessTransitive(a.id, b.id, c.id);
    }
    if a.id == b.id == c.id {
      LessTotal(a.id, a.id);
      LessTransitive(a.peer, b.peer, c.peer);
    }
  }

  lemma FirstKeyExists(keys: set<OfferKey>)
    requires keys != {}
    ensures exists k :: k in keys && forall j | j in keys && j != k :: Before(k, j)
  {
    var a :| a in keys;
    if keys == {a} {
      assert forall j | j in keys && j != a :: Before(a, j);
    } else {
      FirstKeyExists(keys - {a});
      var b :| b in keys - {a} && forall j | j in keys - {a} && j != b :: Before(b, j);
      LessTotal(a.id, b.id);
      LessTotal(a.peer, b.peer);
      if Before(a, b) {
        forall j | j in keys && j != a ensures Before(a, j) {
          if j != b {
            assert j in keys - {a};
            BeforeTransitive(a, b, j);
          }
        }
      } else {
        assert Before(b, a);
        assert forall j | j in keys && j != b :: Before(b, j);
      }
    }
  }

  /** The mirror rows in query order. */
  method OrderedRows(keys: set<OfferKey>) returns (rows: seq<OfferKey>)
    ensures QueryResult(rows, keys)
  {
    rows := [];
    var rest := keys;
    while rest != {}
      invariant rest <= keys
      invariant forall i | 0 <= i < |rows| :: rows[i] in keys - rest
      invariant forall k | k in keys - rest :: k in rows
      invariant forall i, j | 0 <= i < j < |rows| :: Before(rows[i], rows[j])
      invariant forall i, k | 0 <= i < |rows| && k in rest :: Before(rows[i], k)
      decreases |rest|
    {
      FirstKeyExists(rest);
      var k :| k in rest && forall j | j in rest && j != k :: Before(k, j);
      rows := rows + [k];
      rest := rest - {k};
    }
  }

  /** Row k offers id; with good set, from outside every excluded folder. */
  predicate Hit(b: Ballot, k: OfferKey, id: string, good: bool) {
    k.id == id && (if good then b.HasGood(k.peer, id) else b.Has(k.peer, id))
  }

  /** The first of the first i rows that offers id. */
  function First(b: Ballot, rows: seq<OfferKey>, i: nat, id: string, good: bool): (r: Option<nat>)
    requires i <= |rows|
    ensures r.Some? ==>
              && r.value < i && Hit(b, rows[r.value], id, good)
              && forall j | 0 <= j < r.value :: !Hit(b, rows[j], id, good)
    ensures r.None? ==> forall j | 0 <= j < i :: !Hit(b, rows[j], id, good)
  {
    if i == 0 then None
    else
      var r := First(b, rows, i - 1, id, good);
      if r.Some? then r
      else if Hit(b, rows[i - 1], id, good) then Some(i - 1) else None
  }

  /** The first offering row is the smallest offering peer's. */
  lemma FirstIsSmallest(b: Ballot, rows: seq<OfferKey>, id: string, good: bool)
    requires QueryResult(rows, b.mirrors.Keys)
    ensures var r := First(b, rows, |rows|, id, good);
            var p := q => if good then b.HasGood(q, id) else b.Has(q, id);
            && (r.None? ==> forall q :: !p(q))
            && (r.Some? ==> b.Smallest(p, rows[r.value].peer))
  {
    var r := First(b, rows, |rows|, id, good);
    var p := q => if good then b.HasGood(q, id) else b.Has(q, id);
    forall q | p(q)
      ensures r.Some? && (q != rows[r.value].peer ==> Less(rows[r.value].peer, q))
    {
      assert OfferKey(q, id) in rows;
      var i :| 0 <= i < |rows| && rows[i] == OfferKey(q, id);
      assert Hit(b, rows[i], id, good);
      if r.value < i {
        assert Before(rows[r.value], rows[i]);
        LessTotal(id, id);
      }
    }
  }

  /** The loop over the mirrors after its first i rows: elected copies, and copies only exclusions keep out. */
  ghost predicate Voted(b: Ballot, rows: seq<OfferKey>, i: nat, desired: map<string, ItemState>,
                        fallback: map<string, ItemState>, id: string)
    requires i <= |rows| && forall k | 0 <= k < |rows| :: rows[k] in b.mirrors
  {
    var good, any := First(b, rows, i, id, true), First(b, rows, i, id, false);
    if b.IsLocal(id) then id in desired && desired[id] == b.LocalState(id) && id !in fallback
    else
      && (id in desired <==> good.Some?)
      && (id in desired ==> desired[id] == b.RemoteState(rows[good.value].peer, id))
      && (good.None? ==> (id in fallback <==> any.Some?))
      && (good.None? && any.Some? ==> fallback[id] == b.RemoteState(rows[any.value].peer, id).(hiddenFolder := true))
  }

  ghost predicate AllVoted(b: Ballot, rows: seq<OfferKey>, i: nat, desired: map<string, ItemState>,
                           fallback: map<string, ItemState>) {
    && i <= |rows| && (forall k | 0 <= k < |rows| :: rows[k] in b.mirrors)
    && forall id :: Voted(b, rows, i, desired, fallback, id)
  }

  /** Once every row is counted, elected copies and otherwise fallbacks are the election. */
  lemma VotedElects(b: Ballot, rows: seq<OfferKey>, desired: map<string, ItemState>, fallback: map<string, ItemState>,
                    id: string)
    requires QueryResult(rows, b.mirrors.Keys) && Voted(b, rows, |rows|, desired, fallback, id)
    ensures id in desired || id in fallback <==> b.ListedBySome(id)
    ensures id in desired ==> b.Elects(id, desired[id])
    ensures id !in desired && id in fallback ==> b.Elects(id, fallback[id])
  {
    var good, any := First(b, rows, |rows|, id, true), First(b, rows, |rows|, id, false);
    FirstIsSmallest(b, rows, id, true);
    FirstIsSmallest(b, rows, id, false);
    if good.Some? {
      assert b.HasGood(rows[good.value].peer, id);
      var p := q => if true then b.HasGood(q, id) else b.Has(q, id);
      SamePredicate(b, p, q => b.HasGood(q, id), rows[good.value].peer);
    } else if any.Some? {
      assert b.Has(rows[any.value].peer, id);
      var p := q => if false then b.HasGood(q, id) else b.Has(q, id);
      SamePredicate(b, p, q => b.Has(q, id), rows[any.value].peer);
    }
  }

  /** So the two together are. */
  lemma VotesElect(b: Ballot, rows: seq<OfferKey>, desired: map<string, ItemState>, fallback: map<string, ItemState>)
    requires QueryResult(rows, b.mirrors.Keys) && AllVoted(b, rows, |rows|, desired, fallback)
    ensures b.IsElection(fallback + desired)
  {
    var d := fallback + desired;
    forall id
      ensures id in d <==> b.ListedBySome(id)
      ensures id in d ==> b.Elects(id, d[id])
    {
      VotedElects(b, rows, desired, fallback, id);
    }
  }

  lemma SamePredicate(b: Ballot, p: string -> bool, p': string -> bool, peer: string)
    requires b.Smallest(p, peer) && forall q :: p(q) == p'(q)
    ensures b.Smallest(p', peer)
  {
  }

  /** Row k counted: elected unless its item is, or kept as a fallback if only exclusions keep it out. */
  function Counted(b: Ballot, k: OfferKey, desired: map<string, ItemState>, fallback: map<string, ItemState>)
    : (map<string, ItemState>, map<string, ItemState>)
    requires k in b.mirrors
  {
    if !b.Has(k.peer, k.id) || k.id in desired then (desired, fallback)
    else if !b.Excluded(k.peer, k.id) then (desired[k.id := b.RemoteState(k.peer, k.id)], fallback)
    else if k.id in fallback then (desired, fallback)
    else (desired, fallback[k.id := b.RemoteState(k.peer, k.id).(hiddenFolder := true)])
  }

  /** It changes nothing for other items. */
  lemma CountedOthers(b: Ballot, rows: seq<OfferKey>, i: nat, desired: map<string, ItemState>,
                      fallback: map<string, ItemState>, id: string)
    requires i < |rows| && (forall k | 0 <= k < |rows| :: rows[k] in b.mirrors) && id != rows[i].id
    requires Voted(b, rows, i, desired, fallback, id)
    ensures var (d, f) := Counted(b, rows[i], desired, fallback); Voted(b, rows, i + 1, d, f, id)
  {
  }

  lemma CountedOwn(b: Ballot, rows: seq<OfferKey>, i: nat, desired: map<string, ItemState>,
                   fallback: map<string, ItemState>)
    requires i < |rows| && forall k | 0 <= k < |rows| :: rows[k] in b.mirrors
    requires Voted(b, rows, i, desired, fallback, rows[i].id)
    ensures var (d, f) := Counted(b, rows[i], desired, fallback); Voted(b, rows, i + 1, d, f, rows[i].id)
  {
  }

  lemma AllCounted(b: Ballot, rows: seq<OfferKey>, i: nat, desired: map<string, ItemState>,
                   fallback: map<string, ItemState>)
    requires i < |rows| && AllVoted(b, rows, i, desired, fallback)
    ensures var (d, f) := Counted(b, rows[i], desired, fallback); AllVoted(b, rows, i + 1, d, f)
  {
    var (d, f) := Counted(b, rows[i], desired, fallback);
    var n := i + 1;
    forall id ensures Voted(b, rows, n, d, f, id) {
      assert Voted(b, rows, i, desired, fallback, id);
      if id == rows[i].id {
        CountedOwn(b, rows, i, desired, fallback);
      } else {
        CountedOthers(b, rows, i, desired, fallback, id);
      }
    }
  }

  /** Counts one mirror row. */
  method Vote(b: Ballot, k: OfferKey, desired: map<string, ItemState>, fallback: map<string, ItemState>)
    returns (desired': map<string, ItemState>, fallback': map<string, ItemState>)
    requires k in b.mirrors
    ensures (desired', fallback') == Counted(b, k, desired, fallback)
  {
    desired', fallback' := desired, fallback;
    var e := b.mirrors[k];
    if k.peer in b.offering && k.id !in desired {
      var st := StateFromEntry(e).(peerID := k.peer, peerItemID := e.itemID, hidden := IsHidden(b.hides, e));
      var under := UnderAnyFolder(e.path, b.FoldersOf(k.peer));
      if !under {
        desired' := desired[k.id := st];
      } else if k.id !in fallback {
        fallback' := fallback[k.id := st.(hiddenFolder := true)];
      }
    }
  }

  /** Elects a copy of every item, and collects the hide key of every item some source has. */
  method Elect(b: Ballot) returns (desired: map<string, ItemState>, offered: set<string>)
    ensures b.IsElection(desired)
    ensures offered == b.OfferedKeys()
  {
    offered := (set id | id in b.local && !b.local[id].deleted :: HideKey(b.local[id].entry)) +
               (set k | k in b.mirrors :: HideKey(b.mirrors[k]));
    assert offered == b.OfferedKeys();
    desired := map id | id in b.local && !b.local[id].deleted ::
      StateFromEntry(b.local[id].entry).(
        local := true, localItemID := b.local[id].entry.itemID, hidden := b.local[id].hidden);
    var fallback: map<string, ItemState> := map[];
    var rows := OrderedRows(b.mirrors.Keys);
    for i := 0 to |rows|
      invariant AllVoted(b, rows, i, desired, fallback)
    {
      AllCounted(b, rows, i, desired, fallback);
      desired, fallback := Vote(b, rows[i], desired, fallback);
    }
    VotesElect(b, rows, desired, fallback);
    desired := fallback + desired;
  }

  // ------------------------------------------------------ what changes it

  /** Changing folder exclusions never changes which items are listed. */
  lemma ExclusionsKeepListing(b1: Ballot, b2: Ballot, d1: map<string, ItemState>, d2: map<string, ItemState>)
    requires b1.IsElection(d1) && b2.IsElection(d2) && b2 == b1.(excluded := b2.excluded)
    ensures d1.Keys == d2.Keys
  {
    forall id ensures id in d1 <==> id in d2 {
      assert id in d1 <==> b1.ListedBySome(id);
      assert id in d2 <==> b2.ListedBySome(id);
      assert forall peer :: b1.Has(peer, id) == b2.Has(peer, id);
    }
  }

  lemma MoreFolders(path: string, f1: seq<string>, f2: seq<string>)
    requires forall f | f in f1 :: f in f2
    ensures UnderAny(path, f1) ==> UnderAny(path, f2)
  {
    if i :| 0 <= i < |f1| && UnderFolder(path, f1[i]) {
      assert f1[i] in f2;
    }
  }

  /** Excluding more folders only ever hides more items by folder. */
  lemma MoreExclusionsHideMore(b1: Ballot, b2: Ballot, d1: map<string, ItemState>, d2: map<string, ItemState>,
                               id: string)
    requires b1.IsElection(d1) && b2.IsElection(d2) && b2 == b1.(excluded := b2.excluded)
    requires forall peer, f | f in b1.FoldersOf(peer) :: f in b2.FoldersOf(peer)
    requires id in d2 && !d2[id].hiddenFolder
    ensures id in d1 && !d1[id].hiddenFolder
  {
    ExclusionsKeepListing(b1, b2, d1, d2);
    assert b1.Elects(id, d1[id]) && b2.Elects(id, d2[id]);
    if !b1.IsLocal(id) {
      if q :| b2.HasGood(q, id) {
        MoreFolders(b1.mirrors[OfferKey(q, id)].path, b1.FoldersOf(q), b2.FoldersOf(q));
        assert b1.HasGood(q, id);
      }
    }
  }

  /** Dropping the hides of items no source has any more changes no elected state. */
  lemma DroppedHidesChangeNothing(b: Ballot, d: map<string, ItemState>)
    requires b.IsElection(d)
    ensures b.(hides := b.hides * b.OfferedKeys()).IsElection(d)
  {
    var b' := b.(hides := b.hides * b.OfferedKeys());
    forall peer, id ensures SameStanding(b, b', peer, id) {
      if b.Has(peer, id) {
        assert HideKey(b.mirrors[OfferKey(peer, id)]) in b.OfferedKeys();
      }
    }
    SameEverywhere(b, b', d);
  }

  /** Ballots in which every item is equally local and every copy counts alike have the same election. */
  lemma SameEverywhere(b: Ballot, b': Ballot, d: map<string, ItemState>)
    requires b.IsElection(d)
    requires forall id :: b'.IsLocal(id) == b.IsLocal(id) && (b.IsLocal(id) ==> b'.LocalState(id) == b.LocalState(id))
    requires forall peer, id :: SameStanding(b, b', peer, id)
    ensures b'.IsElection(d)
  {
    forall id ensures id in d <==> b'.ListedBySome(id) {
      assert id in d <==> b.ListedBySome(id);
      assert b'.IsLocal(id) == b.IsLocal(id);
      assert forall peer | SameStanding(b, b', peer, id) :: b'.Has(peer, id) == b.Has(peer, id);
    }
    forall id | id in d ensures b'.Elects(id, d[id]) {
      SameElects(b, b', id, d[id]);
    }
  }

  /** peer's copy of id counts alike in both ballots, and would get the same state. */
  ghost predicate SameStanding(b: Ballot, b': Ballot, peer: string, id: string) {
    && b'.Has(peer, id) == b.Has(peer, id) && b'.HasGood(peer, id) == b.HasGood(peer, id)
    && (b.Has(peer, id) ==> b'.RemoteState(peer, id) == b.RemoteState(peer, id))
  }

  /** Ballots that give every copy of id the same standing and state elect alike. */
  lemma SameElects(b: Ballot, b': Ballot, id: string, st: ItemState)
    requires b.Elects(id, st)
    requires b'.IsLocal(id) == b.IsLocal(id) && (b.IsLocal(id) ==> b'.LocalState(id) == b.LocalState(id))
    requires forall peer :: SameStanding(b, b', peer, id)
    ensures b'.Elects(id, st)
  {
    assert forall peer | SameStanding(b, b', peer, id) :: b'.Has(peer, id) == b.Has(peer, id);
    assert forall peer | SameStanding(b, b', peer, id) :: b'.HasGood(peer, id) == b.HasGood(peer, id);
    if b.IsLocal(id) {
    } else if q :| b.HasGood(q, id) {
      var x :| b.Smallest(q => b.HasGood(q, id), x) && st == b.RemoteState(x, id);
      assert SameStanding(b, b', x, id);
      SamePredicate(b, q => b.HasGood(q, id), q => b'.HasGood(q, id), x);
      assert b'.Smallest(q => b'.HasGood(q, id), x);
    } else {
      var x :| b.Smallest(q => b.Has(q, id), x) && st == b.RemoteState(x, id).(hiddenFolder := true);
      assert SameStanding(b, b', x, id);
      SamePredicate(b, q => b.Has(q, id), q => b'.Has(q, id), x);
      assert b'.Smallest(q => b'.Has(q, id), x);
    }
  }

  /** The two logs list the same live items alike; revisions and tombstones may differ. */
  ghost predicate SameLive(l1: map<string, Row>, l2: map<string, Row>) {
    forall id ::
      && Live(l1, id) == Live(l2, id)
      && (Live(l1, id) ==> l1[id].entry == l2[id].entry && l1[id].hidden == l2[id].hidden)
  }

  /** An election reads only the live items, what offering peers have, and their exclusions. */
  lemma SameElection(b: Ballot, b': Ballot, d: map<string, ItemState>)
    requires b.IsElection(d) && SameLive(b.local, b'.local)
    requires b' == b.(local := b'.local, excluded := b'.excluded)
    requires forall peer | peer in b.offering :: b'.FoldersOf(peer) == b.FoldersOf(peer)
    ensures b'.IsElection(d)
  {
    forall peer, id ensures SameStanding(b, b', peer, id) {
    }
    SameEverywhere(b, b', d);
  }

  // ------------------------------------------------- item by item, by fields

  /** st shows what e says of the item. */
  predicate Shows(st: ItemState, e: Entry) {
    && st.name == e.name && st.mediaType == e.mediaType && st.path == e.path
    && st.seriesGlobalID == e.seriesGlobalID && st.seriesName == e.seriesName
    && st.seasonNumber == e.seasonNumber && st.episodeNumber == e.episodeNumber
  }

  /** This node's own item is elected whoever else has it, hidden as its last refresh recorded. */
  lemma ElectedLocal(b: Ballot, d: map<string, ItemState>, id: string)
    requires b.IsElection(d) && id in b.local && !b.local[id].deleted
    ensures id in d && d[id].local && Shows(d[id], b.local[id].entry)
    ensures d[id].localItemID == b.local[id].entry.itemID && d[id].peerID == "" && d[id].peerItemID == ""
    ensures d[id].hidden == b.local[id].hidden && !d[id].hiddenFolder
  {
    assert b.ListedBySome(id) && b.Elects(id, d[id]);
  }

  /** An offering peer has the item, in none of the folders excluded for that peer. */
  ghost predicate Good(b: Ballot, p: string, id: string) {
    && p in b.offering && OfferKey(p, id) in b.mirrors
    && (p in b.excluded ==> forall f | f in b.excluded[p] :: !UnderFolder(b.mirrors[OfferKey(p, id)].path, f))
  }

  /**
    Any other item is listed exactly if an offering peer has it: as the smallest one outside
    excluded folders has it, or else, marked so, as the smallest one has it.
   */
  lemma ElectedRemote(b: Ballot, d: map<string, ItemState>, id: string)
    requires b.IsElection(d) && (id in b.local ==> b.local[id].deleted)
    ensures id in d <==> exists p :: p in b.offering && OfferKey(p, id) in b.mirrors
    ensures id in d ==>
              var p, st := d[id].peerID, d[id];
              && p in b.offering && OfferKey(p, id) in b.mirrors && Shows(st, b.mirrors[OfferKey(p, id)])
              && !st.local && st.localItemID == "" && st.peerItemID == b.mirrors[OfferKey(p, id)].itemID
              && (st.hiddenFolder <==> forall q :: !Good(b, q, id))
              && (!st.hiddenFolder ==> Good(b, p, id) && forall q | Good(b, q, id) && q != p :: Less(p, q))
              && (st.hiddenFolder ==>
                    forall q | q in b.offering && OfferKey(q, id) in b.mirrors && q != p :: Less(p, q))
  {
    assert id in d <==> b.ListedBySome(id);
    assert forall p :: b.Has(p, id) <==> p in b.offering && OfferKey(p, id) in b.mirrors;
    forall p ensures Good(b, p, id) <==> b.HasGood(p, id) {
      GoodIsHasGood(b, p, id);
    }
    if id in d {
      assert b.Elects(id, d[id]);
      if q :| b.HasGood(q, id) {
        var p :| b.Smallest(q => b.HasGood(q, id), p) && d[id] == b.RemoteState(p, id);
      } else {
        var p :| b.Smallest(q => b.Has(q, id), p) && d[id] == b.RemoteState(p, id).(hiddenFolder := true);
      }
    }
  }

  lemma GoodIsHasGood(b: Ballot, p: string, id: string)
    ensures Good(b, p, id) <==> b.HasGood(p, id)
  {
    if b.Has(p, id) && p in b.excluded {
      var path, fs := b.mirrors[OfferKey(p, id)].path, b.excluded[p];
      if UnderAny(path, fs) {
        var i :| 0 <= i < |fs| && UnderFolder(path, fs[i]);
        assert fs[i] in fs;
      }
    }
  }

  /** With no nameless peer offering, every elected remote item names its peer. */
  lemma RemoteNamesPeer(b: Ballot, d: map<string, ItemState>, id: string)
    requires b.IsElection(d) && id in d && "" !in b.offering
    ensures d[id].local ==> d[id].peerID == ""
    ensures !d[id].local ==> d[id].peerID in b.offering && OfferKey(d[id].peerID, id) in b.mirrors
  {
    assert b.Elects(id, d[id]);
  }
}
