/**
  What a sync and a cycle come to, item by item, in the fields of rows and entries: which
  items the table lists, under which peer, and which of them have a redirect on the disk.
 */
module Outcomes {
  import opened Wrappers
  import opened Bytes
  import opened Entries
  import opened Feed
  import opened Mirror
  import opened Election
  import opened Hiding
  import opened Paths
  import opened Items
  import opened Strm
  import opened Cycles
  import opened Sync

  // ------------------------------------------------------------------- syncs

  /** p is known, and online or not long gone, and has the item id mirrored here. */
  predicate Serves(g: Given, s': Stored, p: string, id: string) {
    p in g.known && (p in g.online || p in g.recent) && id in Contents(MirrorOf(s'.mirrors, p))
  }

  /** A sync that may re-read the library leaves exactly its real items as this node's own. */
  lemma SyncListsLocal(s: Stored, g: Given, strmDir: string, s': Stored, id: string)
    requires Wf(s.log) && Synced(s, g, strmDir, s')
    ensures g.refreshLocal || s.indexedAt.None? ==>
              && g.listing.Some?
              && (id in s'.log.rows && !s'.log.rows[id].deleted <==> id in RealItems(g.listing.value, strmDir))
    ensures !g.refreshLocal && s.indexedAt.Some? ==> s'.log == s.log
  {
    if Rereads(s, g) {
      RefreshExact(s.log, RealItems(g.listing.value, strmDir), s.hides, g.now, s'.log);
      assert Reflects(s'.log.rows, RealItems(g.listing.value, strmDir), s.hides, id);
    }
  }

  /** The table after a sync lists an own item as local, whoever serves it. */
  lemma SyncElectsLocal(s: Stored, g: Given, strmDir: string, s': Stored, items: map<string, Item>,
                        items': map<string, Item>, id: string)
    requires Synced(s, g, strmDir, s') && ElectsInto(BallotOf(s, g, s'), items, items')
    requires "" !in g.online && "" !in g.recent
    requires id in s'.log.rows && !s'.log.rows[id].deleted
    ensures id in items' && items'[id].st.local && Shows(items'[id].st, s'.log.rows[id].entry)
    ensures items'[id].st.hidden == s'.log.rows[id].hidden
  {
    var b := BallotOf(s, g, s');
    var d: map<string, ItemState> :| b.IsElection(d) && items' == Elected(items, d);
    ElectionNamesPeers(b, d);
    ElectedLocal(b, d, id);
    DesiredSurvive(items, d, id);
  }

  /**
    Any other item is elected to a peer exactly if one serves it, and then to one that does: an item
    only peers long gone have is withdrawn, one a peer only just lost touch with is not.
   */
  lemma SyncElectsRemote(s: Stored, g: Given, strmDir: string, s': Stored, items: map<string, Item>,
                         items': map<string, Item>, id: string)
    requires Synced(s, g, strmDir, s') && ElectsInto(BallotOf(s, g, s'), items, items')
    requires "" !in g.online && "" !in g.recent && g.online <= g.known && g.recent <= g.known
    requires id in s'.log.rows ==> s'.log.rows[id].deleted
    ensures id in items' ==> !items'[id].st.local
    ensures id in items' && items'[id].st.peerID != "" <==> exists p :: Serves(g, s', p, id)
    ensures id in items' && items'[id].st.peerID != "" ==>
              var st := items'[id].st;
              Serves(g, s', st.peerID, id) && ShowsCopy(s, st, Contents(MirrorOf(s'.mirrors, st.peerID))[id])
    ensures id in items' ==> items'[id].strmPath == PathOf(items, id)
  {
    var b := BallotOf(s, g, s');
    var d: map<string, ItemState> :| b.IsElection(d) && items' == Elected(items, d);
    ElectionNamesPeers(b, d);
    ElectedToServing(s, g, strmDir, s', d, id);
    if id in d {
      DesiredSurvive(items, d, id);
    }
  }

  lemma ElectedToServing(s: Stored, g: Given, strmDir: string, s': Stored, d: map<string, ItemState>, id: string)
    requires Synced(s, g, strmDir, s') && BallotOf(s, g, s').IsElection(d)
    requires g.online <= g.known && g.recent <= g.known && (id in s'.log.rows ==> s'.log.rows[id].deleted)
    ensures id in d <==> exists p :: Serves(g, s', p, id)
    ensures id in d ==>
              && !d[id].local && Serves(g, s', d[id].peerID, id)
              && ShowsCopy(s, d[id], Contents(MirrorOf(s'.mirrors, d[id].peerID))[id])
  {
    var b := BallotOf(s, g, s');
    ElectedRemote(b, d, id);
    forall p ensures Serves(g, s', p, id) <==> p in b.offering && OfferKey(p, id) in b.mirrors {
      AllRowsAt(s'.mirrors, p, id);
    }
    if id in d {
      AllRowsAt(s'.mirrors, d[id].peerID, id);
      ElectionHides(b, d, id);
    }
  }

  /** The state of a remote item says what its copy says, and is hidden exactly if a hide stands for that. */
  ghost predicate ShowsCopy(s: Stored, st: ItemState, e: Entry) {
    Shows(st, e) && st.peerItemID == e.itemID && (st.hidden <==> HiddenBy(s.hides, e))
  }

  /** A hide outlives a sync exactly if it stands for an own item, or for one mirrored of any known peer. */
  lemma SyncKeepsHides(s: Stored, g: Given, strmDir: string, s': Stored, key: string)
    requires Synced(s, g, strmDir, s')
    ensures key in s'.hides <==>
              && key in s.hides
              && (|| (exists id :: id in s'.log.rows && !s'.log.rows[id].deleted &&
                                   StandsFor(key, s'.log.rows[id].entry))
                  || (exists p, id :: id in Contents(MirrorOf(s'.mirrors, p)) &&
                                      StandsFor(key, Contents(MirrorOf(s'.mirrors, p))[id])))
  {
    HideSurvives(BallotOf(s, g, s'), key);
    if k :| k in AllRows(s'.mirrors) && StandsFor(key, AllRows(s'.mirrors)[k]) {
      AllRowsAt(s'.mirrors, k.peer, k.id);
      assert k == OfferKey(k.peer, k.id);
      assert k.id in Contents(MirrorOf(s'.mirrors, k.peer));
    }
    if p, id :| id in Contents(MirrorOf(s'.mirrors, p)) && StandsFor(key, Contents(MirrorOf(s'.mirrors, p))[id]) {
      AllRowsAt(s'.mirrors, p, id);
      assert OfferKey(p, id) in AllRows(s'.mirrors);
    }
  }

  // ------------------------------------------------------------------ cycles

  /**
    The rows with a recorded file are exactly those of playable items elected to a peer that neither
    the user nor a folder exclusion hides.
   */
  ghost predicate RecordsByState(cfg: Config, items: map<string, Item>) {
    forall id | id in items ::
      var st := items[id].st;
      items[id].strmPath ==
      if !st.local && !st.hidden && !st.hiddenFolder &&
         st.peerID != "" && st.peerItemID != "" && st.mediaType != "series"
      then Some(cfg.place(st, id)) else None
  }

  /** A .strm file, or one still being written, somewhere under movies/ or series/. */
  predicate RedirectPath(cfg: Config, p: Path) {
    && |p| >= |cfg.out| + 2 && cfg.out <= p && (p[|cfg.out|] == "movies" || p[|cfg.out|] == "series")
    && (HasSuffix(p[|p| - 1], ".strm") || ".jellysync-" <= p[|p| - 1])
  }

  /** The files there are exactly the recorded ones, and every recorded file streams its item. */
  ghost predicate FilesByRecord(cfg: Config, items: map<string, Item>, files: Files) {
    && (forall p | RedirectPath(cfg, p) :: p in files <==> Recorded(items, p))
    && forall id | id in items && items[id].strmPath.Some? ::
         Get(files, items[id].strmPath.value) ==
         Some(TrimSlashes(cfg.baseURL) + "/api/v1/proxy/stream/" + items[id].st.peerID + "/" + items[id].st.peerItemID)
  }

  /** Whatever a clean reconcile saves is recorded that way. */
  lemma CleanRecords(cfg: Config, items: map<string, Item>)
    ensures RecordsByState(cfg, Recordings(cfg, items))
  {
  }

  lemma SettledRecords(cfg: Config, desired: map<string, ItemState>)
    ensures RecordsByState(cfg, SettledTable(cfg, desired))
  {
  }

  /** Exact files are those of the settled table's records. */
  lemma ExactByRecord(cfg: Config, desired: map<string, ItemState>, files: Files)
    requires ExactFiles(cfg, desired, files)
    ensures FilesByRecord(cfg, SettledTable(cfg, desired), files)
  {
    var t := SettledTable(cfg, desired);
    forall p ensures Recorded(t, p) <==> Owned(cfg, t, p) {
      RecordedIsOwned(cfg, desired, p);
      if id :| Owns(cfg, t, id, p) {
        OwnsIsRecorded(cfg, desired, id, p);
      }
    }
    forall id | id in t && t[id].strmPath.Some?
      ensures Get(files, t[id].strmPath.value) == Some(StreamURL(cfg, t[id]))
    {
      OwnsIsRecorded(cfg, desired, id, t[id].strmPath.value);
    }
  }

  lemma OwnsIsRecorded(cfg: Config, desired: map<string, ItemState>, id: string, p: Path)
    ensures var t := SettledTable(cfg, desired);
            Owns(cfg, t, id, p) <==> id in t && t[id].strmPath == Some(p)
  {
    if id in desired {
      SameGoal(cfg, id, SettledTable(cfg, desired)[id], Item(desired[id], None));
    }
  }

  /** After one clean cycle the same holds of its table, which may still list rows without a file. */
  lemma CycledByRecord(cfg: Config, desired: map<string, ItemState>, items: map<string, Item>, files: Files)
    requires NamesPeers(desired) && ExactFiles(cfg, desired, files)
    ensures FilesByRecord(cfg, Cycled(cfg, desired, items), files)
  {
    var c, t := Cycled(cfg, desired, items), SettledTable(cfg, desired);
    ExactByRecord(cfg, desired, files);
    forall id
      ensures id in t ==> id in c && c[id] == t[id]
      ensures id in c && id !in t ==> c[id].strmPath.None?
    {
      CycledAt(cfg, desired, items, id);
    }
    forall p ensures Recorded(c, p) <==> Recorded(t, p) {
      if id :| id in c && c[id].strmPath == Some(p) {
        assert id in t && t[id].strmPath == Some(p);
      }
      if id :| id in t && t[id].strmPath == Some(p) {
        assert id in c && c[id].strmPath == Some(p);
      }
    }
  }

  /** And a file a row recorded before is gone, wherever it was, unless a row records it now. */
  lemma DroppedFileIsGone(cfg: Config, desired: map<string, ItemState>, items: map<string, Item>, files: Files,
                          files': Files, p: Path)
    requires NamesPeers(desired) && CleanDisk(cfg, Elected(items, desired), files, files')
    requires Recorded(Elected(items, desired), p) && !Recorded(Cycled(cfg, desired, items), p)
    ensures p !in files'
  {
    var e := Elected(items, desired);
    assert CleanAt(cfg, e, files, files', p);
    forall id ensures Owns(cfg, e, id, p) ==> Recorded(Recordings(cfg, e), p) {
      OwnerRecords(cfg, e, id, p);
    }
  }

  /** Any other file, such as the artwork saved next to a redirect, stays what it was. */
  lemma OtherFileStays(cfg: Config, desired: map<string, ItemState>, items: map<string, Item>, files: Files,
                       files': Files, p: Path)
    requires NamesPeers(desired) && CleanDisk(cfg, Elected(items, desired), files, files')
    requires !RedirectPath(cfg, p)
    requires !Recorded(Elected(items, desired), p) && !Recorded(Cycled(cfg, desired, items), p)
    ensures Get(files', p) == Get(files, p)
  {
    var e := Elected(items, desired);
    assert CleanAt(cfg, e, files, files', p);
    forall id ensures Owns(cfg, e, id, p) ==> Recorded(Recordings(cfg, e), p) {
      OwnerRecords(cfg, e, id, p);
    }
  }

  lemma OwnerRecords(cfg: Config, items: map<string, Item>, id: string, p: Path)
    ensures Owns(cfg, items, id, p) ==> Recorded(Recordings(cfg, items), p)
  {
    if id in items && Goal(cfg, id, items[id]) == Some(p) {
      assert Recordings(cfg, items)[id].strmPath == Some(p);
    }
  }
}
