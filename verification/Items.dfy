/** The catalog_items table and how an election is written to it (writeElection, internal/catalog/catalog.go). */
module Items {
  import opened Wrappers
  import opened Election
  import opened Paths

  /** One row of catalog_items: its election-relevant content and its recorded .strm file. */
  datatype Item = Item(st: ItemState, strmPath: Option<Path>)

  /** Neither local, nor elected, nor with a file left to clean up. */
  predicate Inert(it: Item) {
    !it.st.local && it.st.peerID == "" && it.strmPath.None?
  }

  function PathOf(items: map<string, Item>, id: string): Option<Path> {
    if id in items then items[id].strmPath else None
  }

  /** A row no longer desired: its election is cleared, its file left to the reconcile. */
  function Cleared(it: Item): Item {
    if it.st.peerID != "" then it.(st := it.st.(peerID := "", peerItemID := "")) else it
  }

  /** What the row of id becomes before inert rows go; None if it is deleted. */
  function Rewritten(items: map<string, Item>, desired: map<string, ItemState>, id: string): Option<Item> {
    if id in desired then Some(Item(desired[id], PathOf(items, id)))
    else if id in items && !items[id].st.local then Some(Cleared(items[id]))
    else None
  }

  predicate Survives(items: map<string, Item>, desired: map<string, ItemState>, id: string) {
    Rewritten(items, desired, id).Some? && !Inert(Rewritten(items, desired, id).value)
  }

  /** The table after writing the election desired. */
  function Elected(items: map<string, Item>, desired: map<string, ItemState>): map<string, Item> {
    map id | id in items.Keys + desired.Keys && Survives(items, desired, id) :: Rewritten(items, desired, id).value
  }

  /** Every desired remote item names its peer; local ones name none. */
  ghost predicate NamesPeers(desired: map<string, ItemState>) {
    forall id | id in desired :: desired[id].local || desired[id].peerID != ""
  }

  /** The inert delete never drops a desired row. */
  lemma DesiredSurvive(items: map<string, Item>, desired: map<string, ItemState>, id: string)
    requires NamesPeers(desired) && id in desired
    ensures id in Elected(items, desired) && Elected(items, desired)[id] == Item(desired[id], PathOf(items, id))
  {
  }

  /** In tx the ids in rest are as in items, every other row is rewritten. */
  ghost predicate Stage(items: map<string, Item>, desired: map<string, ItemState>, rest: set<string>,
                        tx: map<string, Item>) {
    forall id :: Get(tx, id) == if id in rest then Get(items, id) else Rewritten(items, desired, id)
  }

  /** A new or changed item is upserted, its recorded file left alone. */
  method UpsertOne(items: map<string, Item>, desired: map<string, ItemState>, ghost rest: set<string>,
                   tx: map<string, Item>, id: string)
    returns (tx': map<string, Item>)
    requires Stage(items, desired, rest, tx) && id in desired && id in rest
    ensures Stage(items, desired, rest - {id}, tx')
  {
    assert Get(tx, id) == Get(items, id);
    if id in items && items[id].st == desired[id] {
      tx' := tx;
    } else {
      tx' := tx[id := Item(desired[id], if id in tx then tx[id].strmPath else None)];
    }
  }

  method UpsertDesired(items: map<string, Item>, desired: map<string, ItemState>) returns (tx: map<string, Item>)
    ensures Stage(items, desired, items.Keys - desired.Keys, tx)
  {
    tx := items;
    var up := desired.Keys;
    ghost var stale := items.Keys - desired.Keys;
    while up != {}
      invariant up <= desired.Keys
      invariant Stage(items, desired, stale + up, tx)
      decreases |up|
    {
      var id :| id in up;
      tx := UpsertOne(items, desired, stale + up, tx, id);
      Shrink(stale, up, id);
      up := up - {id};
    }
    assert stale + up == stale;
  }

  lemma Shrink(stale: set<string>, up: set<string>, id: string)
    requires id in up && id !in stale
    ensures stale + (up - {id}) == stale + up - {id}
  {
  }

  /** A stale local row is deleted, a remote row nobody offers loses its election. */
  method ClearOne(items: map<string, Item>, desired: map<string, ItemState>, ghost rest: set<string>,
                  tx: map<string, Item>, id: string)
    returns (tx': map<string, Item>)
    requires Stage(items, desired, rest, tx) && id in items && id !in desired && id in rest
    ensures Stage(items, desired, rest - {id}, tx')
  {
    assert Get(tx, id) == Get(items, id);
    var st := items[id].st;
    if st.local {
      tx' := tx - {id};
    } else if st.peerID != "" {
      tx' := tx[id := tx[id].(st := tx[id].st.(peerID := "", peerItemID := ""))];
    } else {
      tx' := tx;
    }
  }

  method ClearStale(items: map<string, Item>, desired: map<string, ItemState>, upserted: map<string, Item>)
    returns (tx: map<string, Item>)
    requires Stage(items, desired, items.Keys - desired.Keys, upserted)
    ensures Stage(items, desired, {}, tx)
  {
    tx := upserted;
    var rest := items.Keys - desired.Keys;
    while rest != {}
      invariant rest <= items.Keys - desired.Keys
      invariant Stage(items, desired, rest, tx)
      decreases |rest|
    {
      var id :| id in rest;
      tx := ClearOne(items, desired, rest, tx, id);
      rest := rest - {id};
    }
  }

  lemma StageEnds(items: map<string, Item>, desired: map<string, ItemState>, tx: map<string, Item>)
    requires Stage(items, desired, {}, tx)
    ensures (map id | id in tx && !Inert(tx[id]) :: tx[id]) == Elected(items, desired)
  {
    var r := map id | id in tx && !Inert(tx[id]) :: tx[id];
    forall id ensures Get(r, id) == Get(Elected(items, desired), id) {
      assert Get(tx, id) == Rewritten(items, desired, id);
    }
    SameMap(r, Elected(items, desired));
  }

  /** The hides of items some source still offers. */
  method PruneHidden(hides: set<string>, offered: set<string>) returns (kept: set<string>)
    ensures kept == hides * offered
  {
    kept := hides;
    var rest := hides;
    while rest != {}
      invariant rest <= hides
      invariant kept == rest + hides * offered
      decreases |rest|
    {
      var k :| k in rest;
      rest := rest - {k};
      if k !in offered {
        kept := kept - {k};
      }
    }
  }

  class ItemTable {
    var items: map<string, Item>
    // The keys in hidden_items.
    var hides: set<string>

    /**
      Applies the differences between desired and the table, deletes inert rows, and
      drops the hides of items no source offers, in one transaction.
     */
    method WriteElection(desired: map<string, ItemState>, offered: set<string>, commits: bool) returns (ok: bool)
      modifies this
      ensures ok == commits
      ensures commits ==> items == Elected(old(items), desired) && hides == old(hides) * offered
      ensures !commits ==> items == old(items) && hides == old(hides)
    {
      var upserted := UpsertDesired(items, desired);
      var tx := ClearStale(items, desired, upserted);
      StageEnds(items, desired, tx);
      tx := map id | id in tx && !(!tx[id].st.local && tx[id].st.peerID == "" && tx[id].strmPath.None?) :: tx[id];
      var kept := PruneHidden(hides, offered);
      ok := commits;
      if commits {
        items := tx;
        hides := kept;
      }
    }
  }
}
