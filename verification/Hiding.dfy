/**
  What hiding an item does (internal/catalog/hidden.go), said in the fields of its entry: to what
  a node offers, to what it elects, and to the hides themselves.
 */
module Hiding {
  import opened Wrappers
  import opened Entries
  import opened Feed
  import opened Election

  /** The hide key stands for e: an episode's series, by id or else by name; any other item, or an orphan, itself. */
  predicate StandsFor(key: string, e: Entry) {
    || (e.mediaType != "episode" && e.globalID == key)
    || (e.mediaType == "episode" && e.seriesGlobalID != "" && e.seriesGlobalID == key)
    || (e.mediaType == "episode" && e.seriesGlobalID == "" && e.seriesName != "" && e.seriesName == key)
    || (e.mediaType == "episode" && e.seriesGlobalID == "" && e.seriesName == "" && e.globalID == key)
  }

  /** The empty key hides nothing. */
  ghost predicate HiddenBy(hides: set<string>, e: Entry) {
    exists key :: key in hides && key != "" && StandsFor(key, e)
  }

  lemma HiddenExactly(hides: set<string>, e: Entry)
    ensures IsHidden(hides, e) <==> HiddenBy(hides, e)
  {
    assert StandsFor(HideKey(e), e);
  }

  /** After a refresh a listed item is hidden, and not offered, exactly if a hide stands for it. */
  lemma RefreshHides(before: Log, current: map<string, Entry>, hides: set<string>, now: int, l: Log, id: string)
    requires Wf(before) && Refreshed(before, current, hides, now, l)
    ensures id in l.rows && !l.rows[id].deleted <==> id in current
    ensures id in current ==>
              && l.rows[id].entry == current[id] && (l.rows[id].hidden <==> HiddenBy(hides, current[id]))
              && (id in Offered(l) <==> !HiddenBy(hides, current[id]))
  {
    RefreshExact(before, current, hides, now, l);
    assert Reflects(l.rows, current, hides, id);
    if id in current {
      HiddenExactly(hides, current[id]);
    }
  }

  /** So hiding a key more withdraws what it stands for, the whole of a series, and nothing else. */
  lemma HidingWithdraws(before: Log, current: map<string, Entry>, hides: set<string>, now: int, l: Log,
                        before': Log, key: string, now': int, l': Log)
    requires Wf(before) && Refreshed(before, current, hides, now, l)
    requires Wf(before') && Refreshed(before', current, hides + {key}, now', l') && key != ""
    ensures forall id ::
              Get(Offered(l'), id) ==
              if id in Offered(l) && StandsFor(key, Offered(l)[id]) then None else Get(Offered(l), id)
  {
    forall id
      ensures Get(Offered(l'), id) ==
              if id in Offered(l) && StandsFor(key, Offered(l)[id]) then None else Get(Offered(l), id)
    {
      OfferedAt(before, current, hides, now, l, id);
      OfferedAt(before', current, hides + {key}, now', l', id);
      if id in current {
        OneMoreHide(hides, key, current[id]);
      }
    }
  }

  lemma OfferedAt(before: Log, current: map<string, Entry>, hides: set<string>, now: int, l: Log, id: string)
    requires Wf(before) && Refreshed(before, current, hides, now, l)
    ensures Get(Offered(l), id) == if id in current && !HiddenBy(hides, current[id]) then Some(current[id]) else None
  {
    RefreshHides(before, current, hides, now, l, id);
  }

  lemma OneMoreHide(hides: set<string>, key: string, e: Entry)
    requires key != ""
    ensures HiddenBy(hides + {key}, e) <==> HiddenBy(hides, e) || StandsFor(key, e)
  {
    if k :| k in hides && k != "" && StandsFor(k, e) {
      assert k in hides + {key};
    }
    if StandsFor(key, e) {
      assert key in hides + {key};
    }
  }

  /** A remote item is elected as hidden exactly if a hide stands for the elected copy. */
  lemma ElectionHides(b: Ballot, d: map<string, ItemState>, id: string)
    requires b.IsElection(d) && id in d && !d[id].local
    ensures OfferKey(d[id].peerID, id) in b.mirrors
    ensures d[id].hidden <==> HiddenBy(b.hides, b.mirrors[OfferKey(d[id].peerID, id)])
  {
    assert b.Elects(id, d[id]);
    HiddenExactly(b.hides, b.mirrors[OfferKey(d[id].peerID, id)]);
  }

  /** A hide outlives an election exactly if it stands for what some source, offering or not, still has. */
  lemma HideSurvives(b: Ballot, key: string)
    ensures key in b.OfferedKeys() <==>
              || (exists id :: id in b.local && !b.local[id].deleted && StandsFor(key, b.local[id].entry))
              || (exists k :: k in b.mirrors && StandsFor(key, b.mirrors[k]))
  {
    if id :| id in b.local && Live(b.local, id) && key == HideKey(b.local[id].entry) {
      assert StandsFor(key, b.local[id].entry);
    }
    if k :| k in b.mirrors && key == HideKey(b.mirrors[k]) {
      assert StandsFor(key, b.mirrors[k]);
    }
    if id :| id in b.local && !b.local[id].deleted && StandsFor(key, b.local[id].entry) {
      assert key == HideKey(b.local[id].entry);
    }
    if k :| k in b.mirrors && StandsFor(key, b.mirrors[k]) {
      assert key == HideKey(b.mirrors[k]);
    }
  }
}
