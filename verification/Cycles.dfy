/**
  Cycles that write the same election and reconcile: two of them without failures
  settle any table and any disk.
 */
module Cycles {
  import opened Wrappers
  import opened Order
  import opened Election
  import opened Paths
  import opened Places
  import opened Items
  import opened Strm

  /** The table after one cycle without failures. */
  function Cycled(cfg: Config, desired: map<string, ItemState>, items: map<string, Item>): map<string, Item> {
    Recordings(cfg, Elected(items, desired))
  }

  /** Exactly the desired rows, each wanted one recorded where it belongs. */
  function SettledTable(cfg: Config, desired: map<string, ItemState>): map<string, Item> {
    map id | id in desired :: Item(desired[id], Goal(cfg, id, Item(desired[id], None)))
  }

  /** A row nobody offers any more still records a file. */
  predicate Leftover(desired: map<string, ItemState>, items: map<string, Item>, id: string) {
    id in items && id !in desired && !items[id].st.local && items[id].strmPath.Some?
  }

  /** With no nameless peer offering, an election's remote items name their peers. */
  lemma ElectionNamesPeers(b: Ballot, d: map<string, ItemState>)
    requires b.IsElection(d) && "" !in b.offering
    ensures NamesPeers(d)
  {
    forall id | id in d ensures d[id].local || d[id].peerID != "" {
      RemoteNamesPeer(b, d, id);
    }
  }

  lemma CycledAt(cfg: Config, desired: map<string, ItemState>, items: map<string, Item>, id: string)
    requires NamesPeers(desired)
    ensures id in desired ==>
              id in Cycled(cfg, desired, items) && Cycled(cfg, desired, items)[id] == SettledTable(cfg, desired)[id]
    ensures id !in desired ==> (id in Cycled(cfg, desired, items) <==> Leftover(desired, items, id))
    ensures id !in desired && id in Cycled(cfg, desired, items) ==>
              var it := Cycled(cfg, desired, items)[id]; it.strmPath.None? && !it.st.local && it.st.peerID == ""
  {
    var e := Elected(items, desired);
    if id in desired {
      DesiredSurvive(items, desired, id);
      SameGoal(cfg, id, e[id], Item(desired[id], None));
    } else {
      assert id in e <==> Leftover(desired, items, id);
    }
  }

  /** One cycle settles the table exactly when no dropped row had a file left. */
  lemma OneCycleSettles(cfg: Config, desired: map<string, ItemState>, items: map<string, Item>)
    requires NamesPeers(desired)
    ensures Cycled(cfg, desired, items) == SettledTable(cfg, desired) <==> forall id :: !Leftover(desired, items, id)
  {
    var c, t := Cycled(cfg, desired, items), SettledTable(cfg, desired);
    forall id
      ensures id in desired ==> id in c && c[id] == t[id]
      ensures id !in desired ==> (id in c <==> Leftover(desired, items, id))
    {
      CycledAt(cfg, desired, items, id);
    }
    if forall id :: !Leftover(desired, items, id) {
      assert forall id :: id in c <==> id in t;
      assert forall id | id in c :: c[id] == t[id];
      assert c == t;
    }
    if c == t {
      forall id ensures !Leftover(desired, items, id) {
        assert id in c <==> id in t;
      }
    }
  }

  /** Two cycles settle it whatever the table was. */
  lemma TwoCyclesSettle(cfg: Config, desired: map<string, ItemState>, items: map<string, Item>)
    requires NamesPeers(desired)
    ensures Cycled(cfg, desired, Cycled(cfg, desired, items)) == SettledTable(cfg, desired)
  {
    var c := Cycled(cfg, desired, items);
    forall id ensures !Leftover(desired, c, id) {
      CycledAt(cfg, desired, items, id);
    }
    OneCycleSettles(cfg, desired, c);
  }

  /** A settled table stays as it is. */
  lemma SettledIsFixed(cfg: Config, desired: map<string, ItemState>)
    requires NamesPeers(desired)
    ensures Elected(SettledTable(cfg, desired), desired) == SettledTable(cfg, desired)
    ensures Recordings(cfg, SettledTable(cfg, desired)) == SettledTable(cfg, desired)
  {
    var t := SettledTable(cfg, desired);
    forall id | id in desired ensures Goal(cfg, id, t[id]) == t[id].strmPath {
      SameGoal(cfg, id, t[id], Item(desired[id], None));
    }
    forall id ensures Get(Elected(t, desired), id) == Get(t, id) {
      if id in desired {
        DesiredSurvive(t, desired, id);
      }
    }
    SameMap(Elected(t, desired), t);
  }

  lemma ElectedAgain(cfg: Config, desired: map<string, ItemState>, items: map<string, Item>, y: string)
    requires NamesPeers(desired)
    ensures var e := Elected(Cycled(cfg, desired, items), desired); y in e ==> e[y].strmPath == Goal(cfg, y, e[y])
  {
    var c := Cycled(cfg, desired, items);
    var e := Elected(c, desired);
    CycledAt(cfg, desired, items, y);
    if y in desired {
      DesiredSurvive(c, desired, y);
      SameGoal(cfg, y, e[y], Item(desired[y], None));
    }
  }

  /** After a whole cycle no recorded path is stale, so nothing can be overrun in the next. */
  lemma SecondCycleNeverOverruns(cfg: Config, desired: map<string, ItemState>, items: map<string, Item>)
    requires NamesPeers(desired)
    ensures !Overruns(cfg, Elected(Cycled(cfg, desired, items), desired))
  {
    if x, y :| Overrun(cfg, Elected(Cycled(cfg, desired, items), desired), x, y) {
      ElectedAgain(cfg, desired, items, y);
    }
  }

  /**
    Overruns do happen: let ids a and b share a suffix, as title hashes that share eight
    digits do. b is written; a appears and b is hidden; the next reconcile writes a's file
    at b's path and then clears it for b.
   */
  lemma CollidingSuffixesOverrun(cfg: Config, a: string, b: string, st: ItemState)
    requires Less(a, b) && Disambiguator(a, cfg.digest) == Disambiguator(b, cfg.digest)
    requires Wanted(Item(st, None))
    ensures var written := Cycled(cfg, map[b := st], map[]);
            Overruns(cfg, Elected(written, map[a := st, b := st.(hidden := true)]))
  {
    var written := Cycled(cfg, map[b := st], map[]);
    NotSame(a, b);
    SameSuffixSamePath(cfg.out, st, a, b, cfg.digest);
    FirstWritten(cfg, b, st);
    HiddenLater(written, a, b, st);
    SharedPathOverruns(cfg, Elected(written, map[a := st, b := st.(hidden := true)]), a, b, st);
  }

  lemma FirstWritten(cfg: Config, b: string, st: ItemState)
    requires st.peerID != ""
    ensures PathOf(Cycled(cfg, map[b := st], map[]), b) == Goal(cfg, b, Item(st, None))
  {
    var desired := map[b := st];
    CycledAt(cfg, desired, map[], b);
    assert SettledTable(cfg, desired)[b] == Item(st, Goal(cfg, b, Item(st, None)));
  }

  lemma HiddenLater(written: map<string, Item>, a: string, b: string, st: ItemState)
    requires a != b && st.peerID != ""
    ensures var table := Elected(written, map[a := st, b := st.(hidden := true)]);
            && a in table && table[a].st == st
            && b in table && table[b] == Item(st.(hidden := true), PathOf(written, b))
  {
    var now := map[a := st, b := st.(hidden := true)];
    assert now[a] == st && now[b] == st.(hidden := true);
    DesiredSurvive(written, now, a);
    DesiredSurvive(written, now, b);
  }

  lemma NotSame(a: string, b: string)
    requires Less(a, b)
    ensures a != b
  {
    LessTotal(a, b);
  }

  lemma SharedPathOverruns(cfg: Config, table: map<string, Item>, a: string, b: string, st: ItemState)
    requires Less(a, b) && a in table && b in table && Wanted(Item(st, None))
    requires table[a].st == st && table[b].st == st.(hidden := true)
    requires table[b].strmPath == Goal(cfg, b, Item(st, None)) &&
             cfg.place(st, a) == cfg.place(st, b)
    ensures Overruns(cfg, table)
  {
    assert Overrun(cfg, table, a, b);
  }

  /** Every desired row's file is on the disk, and no other .strm file under movies/ and series/. */
  ghost predicate ExactFiles(cfg: Config, desired: map<string, ItemState>, files: Files) {
    var t := SettledTable(cfg, desired);
    forall p ::
      && (Sweepable(cfg, p) ==> (p in files <==> Owned(cfg, t, p)))
      && forall id | Owns(cfg, t, id, p) :: Get(files, p) == Some(StreamURL(cfg, t[id]))
  }

  /** A table just written from an election owns the paths the settled one owns. */
  lemma ElectedOwns(cfg: Config, desired: map<string, ItemState>, items: map<string, Item>, id: string, p: Path)
    requires NamesPeers(desired)
    ensures var e, t := Elected(items, desired), SettledTable(cfg, desired);
            && (Owns(cfg, t, id, p) <==> Owns(cfg, e, id, p))
            && (Owns(cfg, t, id, p) ==> e[id].st == t[id].st)
  {
    if id in desired {
      DesiredSurvive(items, desired, id);
      SameGoal(cfg, id, Elected(items, desired)[id], SettledTable(cfg, desired)[id]);
    } else {
      LeftoverOwnsNone(cfg, desired, items, id, p);
    }
  }

  /** Rows no longer desired own nothing. */
  lemma LeftoverOwnsNone(cfg: Config, desired: map<string, ItemState>, items: map<string, Item>, id: string, p: Path)
    requires id !in desired
    ensures !Owns(cfg, Elected(items, desired), id, p)
  {
    var e := Elected(items, desired);
    if id in e {
      assert e[id] == Cleared(items[id]) && !Wanted(e[id]);
    }
  }

  /** So a reconcile exact for it leaves exactly the files of the election. */
  lemma ElectedDisk(cfg: Config, desired: map<string, ItemState>, items: map<string, Item>, files: Files, files': Files)
    requires NamesPeers(desired) && CleanDisk(cfg, Elected(items, desired), files, files')
    ensures ExactFiles(cfg, desired, files')
  {
    var e, t := Elected(items, desired), SettledTable(cfg, desired);
    forall p
      ensures Sweepable(cfg, p) ==> (p in files' <==> Owned(cfg, t, p))
      ensures forall id | Owns(cfg, t, id, p) :: Get(files', p) == Some(StreamURL(cfg, t[id]))
    {
      assert CleanAt(cfg, e, files, files', p);
      forall id ensures Owns(cfg, t, id, p) <==> Owns(cfg, e, id, p) {
        ElectedOwns(cfg, desired, items, id, p);
      }
      forall id | Owns(cfg, t, id, p) ensures Get(files', p) == Some(StreamURL(cfg, t[id])) {
        ElectedOwns(cfg, desired, items, id, p);
      }
    }
  }

  /** A disk that is exact for a settled table is left alone. */
  lemma SettledDiskIsFixed(cfg: Config, desired: map<string, ItemState>, files: Files, files': Files)
    requires ExactFiles(cfg, desired, files) && CleanDisk(cfg, SettledTable(cfg, desired), files, files')
    ensures files' == files
  {
    var t := SettledTable(cfg, desired);
    forall p ensures Get(files', p) == Get(files, p) {
      assert CleanAt(cfg, t, files, files', p);
      if Owned(cfg, t, p) {
        var id :| Owns(cfg, t, id, p);
      } else {
        RecordedIsOwned(cfg, desired, p);
      }
    }
    SameMap(files', files);
  }

  lemma RecordedIsOwned(cfg: Config, desired: map<string, ItemState>, p: Path)
    ensures Recorded(SettledTable(cfg, desired), p) ==> Owned(cfg, SettledTable(cfg, desired), p)
  {
    var t := SettledTable(cfg, desired);
    if id :| id in t && t[id].strmPath == Some(p) {
      SameGoal(cfg, id, t[id], Item(desired[id], None));
      assert Owns(cfg, t, id, p);
    }
  }

  lemma SettledNeverOverruns(cfg: Config, desired: map<string, ItemState>)
    ensures !Overruns(cfg, SettledTable(cfg, desired))
  {
    var t := SettledTable(cfg, desired);
    if x, y :| Overrun(cfg, t, x, y) {
      SameGoal(cfg, y, t[y], Item(desired[y], None));
    }
  }
}
