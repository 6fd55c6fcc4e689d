/**
  One catalog sync (Sync, internal/catalog/catalog.go): refresh, pull every online
  peer, forget removed ones, then elect from what that left.
 */
module Sync {
  import opened Wrappers
  import opened Entries
  import opened Listing
  import opened Feed
  import opened Mirror
  import opened LocalIndex
  import opened Election
  import opened Items

  /** What is stored about peer p; nothing reads as a blank cursor and no rows. */
  function MirrorOf(mirrors: map<string, Mirror>, p: string): Mirror {
    if p in mirrors then mirrors[p] else Mirror(Blank, map[])
  }

  /** The provider's answers to the pull from p; none if the process is cut off before the first. */
  function AnswersOf(answers: map<string, seq<Answer>>, p: string): seq<Answer> {
    if p in answers then answers[p] else []
  }

  /** One pull from p, whether it completes or fails on the way. */
  function PullFrom(mirrors: map<string, Mirror>, answers: map<string, seq<Answer>>, p: string): Pull {
    var m := MirrorOf(mirrors, p);
    Pulled(m, Load(m.cursor), AnswersOf(answers, p))
  }

  /** The online peers whose pull fails: it does not complete, or the time it did cannot be stored. */
  function Failing(mirrors: map<string, Mirror>, online: set<string>, answers: map<string, seq<Answer>>,
                   unmarked: set<string>): set<string> {
    set p | p in online && (PullFrom(mirrors, answers, p).status != Done || p in unmarked)
  }

  /** The pulls from the peers in done are over, the other mirrors as they were. */
  ghost predicate AllPulled(before: map<string, Mirror>, done: set<string>, answers: map<string, seq<Answer>>,
                            mirrors: map<string, Mirror>) {
    forall p :: MirrorOf(mirrors, p) == if p in done then PullFrom(before, answers, p).m else MirrorOf(before, p)
  }

  lemma OnePulled(before: map<string, Mirror>, done: set<string>, answers: map<string, seq<Answer>>,
                  mirrors: map<string, Mirror>, p: string)
    requires AllPulled(before, done, answers, mirrors) && p !in done
    ensures PullFrom(mirrors, answers, p) == PullFrom(before, answers, p)
    ensures AllPulled(before, done + {p}, answers, mirrors[p := PullFrom(before, answers, p).m])
  {
    assert MirrorOf(mirrors, p) == MirrorOf(before, p);
    var more := mirrors[p := PullFrom(before, answers, p).m];
    forall q
      ensures MirrorOf(more, q) == if q in done + {p} then PullFrom(before, answers, q).m else MirrorOf(before, q)
    {
      assert MirrorOf(more, q) == if q == p then PullFrom(before, answers, p).m else MirrorOf(mirrors, q);
    }
  }

  lemma OneFailing(before: map<string, Mirror>, done: set<string>, answers: map<string, seq<Answer>>,
                   unmarked: set<string>, p: string)
    ensures var failing := Failing(before, done, answers, unmarked);
            Failing(before, done + {p}, answers, unmarked) ==
            if PullFrom(before, answers, p).status == Done && p !in unmarked then failing
            else failing + {p}
  {
  }

  /** Every row of peer_catalog. */
  function AllRows(mirrors: map<string, Mirror>): map<OfferKey, Entry> {
    var keys := set p, id | p in mirrors && id in mirrors[p].rows :: OfferKey(p, id);
    map k | k in keys :: mirrors[k.peer].rows[k.id].entry
  }

  lemma AllRowsAt(mirrors: map<string, Mirror>, p: string, id: string)
    ensures var k, m := OfferKey(p, id), MirrorOf(mirrors, p);
            && (k in AllRows(mirrors) <==> id in Contents(m))
            && (k in AllRows(mirrors) ==> AllRows(mirrors)[k] == Contents(m)[id])
  {
  }

  /** The mirrors a sync leaves: online known peers pulled, other known ones as they were, the rest gone. */
  ghost predicate Followed(before: map<string, Mirror>, online: set<string>, known: set<string>,
                           answers: map<string, seq<Answer>>, mirrors: map<string, Mirror>) {
    && (forall p | p in mirrors :: p in known)
    && (forall p | p in known ::
          MirrorOf(mirrors, p) == if p in online then PullFrom(before, answers, p).m else MirrorOf(before, p))
  }

  /** The exclusions of known peers are as they were, the rest gone. */
  ghost predicate Remembered(before: map<string, seq<string>>, known: set<string>, excluded: map<string, seq<string>>) {
    forall p :: Get(excluded, p) == if p in known then Get(before, p) else None
  }

  /**
    What one sync is given: the request, the listing, the time, which peers are where, what they
    answer, and for which of them the time of a pull cannot be stored.
   */
  datatype Given = Given(refreshLocal: bool, listing: Option<seq<CatalogItem>>, now: int, online: set<string>,
                         recent: set<string>, known: set<string>, answers: map<string, seq<Answer>>,
                         unmarked: set<string>)
  {
    /** The peers whose items count: online, or not long gone. */
    function Offering(): set<string> {
      online + recent
    }
  }

  /** What a node stores besides the table. */
  datatype Stored = Stored(log: Log, indexedAt: Option<int>, mirrors: map<string, Mirror>,
                           excluded: map<string, seq<string>>, hides: set<string>)

  /** The real items of a listing, by id. */
  ghost function RealItems(listing: seq<CatalogItem>, strmDir: string): map<string, Entry> {
    LastWins(RealEntries(listing, strmDir, |listing|))
  }

  /** A sync re-reads the library if asked to, or if it has never been read. */
  predicate Rereads(s: Stored, g: Given) {
    g.refreshLocal || s.indexedAt.None?
  }

  /** What the election of a sync from s reads: the log and mirrors the sync left. */
  function BallotOf(s: Stored, g: Given, s': Stored): Ballot {
    Ballot(s'.log.rows, AllRows(s'.mirrors), g.Offering(), s.hides, s'.excluded)
  }

  /** What a sync that comes to its election has gathered. */
  ghost predicate Gathered(s: Stored, g: Given, strmDir: string, s': Stored) {
    && (if Rereads(s, g) then
          g.listing.Some? && Refreshed(s.log, RealItems(g.listing.value, strmDir), s.hides, g.now, s'.log)
        else s'.log == s.log)
    && s'.indexedAt.Some?
    && Followed(s.mirrors, g.online, g.known, g.answers, s'.mirrors)
    && Remembered(s.excluded, g.known, s'.excluded)
  }

  /** The outcome of a sync that succeeds. */
  ghost predicate Synced(s: Stored, g: Given, strmDir: string, s': Stored) {
    Gathered(s, g, strmDir, s') && s'.hides == s.hides * BallotOf(s, g, s').OfferedKeys()
  }

  /** The table was rewritten from an election of b. */
  ghost predicate ElectsInto(b: Ballot, items: map<string, Item>, items': map<string, Item>) {
    exists desired :: b.IsElection(desired) && items' == Elected(items, desired)
  }

  lemma SyncedSo(s: Stored, g: Given, strmDir: string, gathered: Stored, s': Stored)
    requires Gathered(s, g, strmDir, gathered) && gathered.hides == s.hides
    requires s' == gathered.(hides := s.hides * BallotOf(gathered, g, gathered).OfferedKeys())
    ensures Synced(s, g, strmDir, s') && BallotOf(s, g, s') == BallotOf(gathered, g, gathered)
  {
  }

  class Node {
    const index: LocalCatalog
    const table: ItemTable
    var mirrors: map<string, Mirror>
    var excluded: map<string, seq<string>>

    /** The index and the table see one hidden_items table. */
    ghost predicate Valid()
      reads this, index, table
    {
      index.Valid() && index.hides == table.hides
    }

    function State(): Stored
      reads this, index, table
    {
      Stored(index.log, index.indexedAt, mirrors, excluded, table.hides)
    }

    constructor (index: LocalCatalog, table: ItemTable)
      requires index.Valid() && index.hides == table.hides
      ensures Valid() && this.index == index && this.table == table && mirrors == map[] && excluded == map[]
    {
      this.index, this.table := index, table;
      mirrors, excluded := map[], map[];
    }

    /** Pulls from one peer, and stores when if it completes. */
    method PullOne(p: string, answers: seq<Answer>, marks: bool) returns (done: bool)
      modifies this`mirrors
      ensures var m := MirrorOf(old(mirrors), p);
              var pull := Pulled(m, Load(m.cursor), answers);
              mirrors == old(mirrors)[p := pull.m] && (done <==> pull.status == Done && marks)
    {
      var peer := new PeerMirror(MirrorOf(mirrors, p));
      var status, stats := peer.PullPeer(answers);
      mirrors := mirrors[p := peer.State()];
      done := status == Done && marks;
    }

    /** One more of the pulls of a sync. */
    method PullNext(p: string, answers: map<string, seq<Answer>>, unmarked: set<string>, failed: set<string>,
                    ghost before: map<string, Mirror>, ghost done: set<string>)
      returns (failed': set<string>)
      requires p !in done && AllPulled(before, done, answers, mirrors)
      requires failed == Failing(before, done, answers, unmarked)
      modifies this`mirrors
      ensures AllPulled(before, done + {p}, answers, mirrors)
      ensures failed' == Failing(before, done + {p}, answers, unmarked)
    {
      OnePulled(before, done, answers, mirrors, p);
      OneFailing(before, done, answers, unmarked, p);
      var completed := PullOne(p, AnswersOf(answers, p), p !in unmarked);
      failed' := if completed then failed else failed + {p};
    }

    /** Pulls from every online peer, in any order; one that fails keeps what it committed, and is reported. */
    method PullPeers(online: set<string>, answers: map<string, seq<Answer>>, unmarked: set<string>)
      returns (failed: set<string>)
      modifies this`mirrors
      ensures AllPulled(old(mirrors), online, answers, mirrors)
      ensures failed == Failing(old(mirrors), online, answers, unmarked)
    {
      var rest := online;
      ghost var done: set<string> := {};
      failed := {};
      while rest != {}
        invariant rest !! done && rest + done == online
        invariant AllPulled(old(mirrors), done, answers, mirrors)
        invariant failed == Failing(old(mirrors), done, answers, unmarked)
        decreases |rest|
      {
        var p :| p in rest;
        failed := PullNext(p, answers, unmarked, failed, old(mirrors), done);
        rest := rest - {p};
        done := done + {p};
      }
    }

    /** Drops mirrors, cursors and exclusions of peers no longer registered, in one transaction. */
    method PruneRemovedPeers(known: set<string>) returns (ok: bool)
      modifies this`mirrors, this`excluded
      ensures ok ==> forall p ::
                MirrorOf(mirrors, p) == if p in known then MirrorOf(old(mirrors), p) else Mirror(Blank, map[])
      ensures ok ==> forall p | p in mirrors :: p in known
      ensures ok ==> Remembered(old(excluded), known, excluded)
      ensures !ok ==> mirrors == old(mirrors) && excluded == old(excluded)
    {
      ok := *;
      if ok {
        mirrors := map p | p in mirrors && p in known :: mirrors[p];
        excluded := map p | p in excluded && p in known :: excluded[p];
      }
    }

    /** The local part: a full refresh, or only making sure there has been one. */
    method IndexLocal(g: Given, commits: bool) returns (ok: bool)
      requires Valid()
      modifies index`log, index`indexedAt
      ensures Valid()
      ensures ok <==> (Rereads(old(State()), g) ==> g.listing.Some? && commits)
      ensures ok ==> index.indexedAt.Some?
      ensures ok && Rereads(old(State()), g) ==>
                Refreshed(old(index.log), RealItems(g.listing.value, index.strmDir), index.hides, g.now, index.log)
      ensures !ok || !Rereads(old(State()), g) ==>
                index.log == old(index.log) && index.indexedAt == old(index.indexedAt)
    {
      if g.refreshLocal {
        var r := index.Refresh(g.listing, g.now, commits);
        ok := r.Some?;
      } else {
        ok := index.EnsureIndexed(g.listing, g.now, commits);
      }
    }

    /** The peers' part: pulls, then forgets those no longer known. */
    method Follow(g: Given) returns (ok: bool, failed: set<string>)
      requires g.online <= g.known
      modifies this`mirrors, this`excluded
      ensures !ok || Followed(old(mirrors), g.online, g.known, g.answers, mirrors)
      ensures !ok || Remembered(old(excluded), g.known, excluded)
      ensures failed == Failing(old(mirrors), g.online, g.answers, g.unmarked)
    {
      failed := PullPeers(g.online, g.answers, g.unmarked);
      ok := PruneRemovedPeers(g.known);
    }

    /** All of a sync before its election. */
    method Gather(g: Given, refreshes: bool) returns (ok: bool, failed: set<string>)
      requires Valid() && g.Offering() <= g.known
      modifies this`mirrors, this`excluded, index`log, index`indexedAt
      ensures Valid()
      ensures !ok || Gathered(old(State()), g, index.strmDir, State())
      ensures !ok || failed == Failing(old(mirrors), g.online, g.answers, g.unmarked)
      ensures Rereads(old(State()), g) && (g.listing.None? || !refreshes) ==> !ok && State() == old(State())
    {
      failed := {};
      ok := IndexLocal(g, refreshes);
      if ok {
        ok, failed := Follow(g);
      }
    }

    /** Elects from the log and mirrors as they now are and writes the outcome. */
    method ElectAndWrite(g: Given, commits: bool) returns (ok: bool)
      requires Valid()
      modifies table, index`hides
      ensures Valid()
      ensures ok == commits
      ensures ok ==> var s := old(State());
                State() == s.(hides := s.hides * BallotOf(s, g, s).OfferedKeys()) &&
                ElectsInto(BallotOf(s, g, s), old(table.items), table.items)
      ensures !ok ==> table.items == old(table.items) && table.hides == old(table.hides)
    {
      var desired, offered := Elect(BallotOf(State(), g, State()));
      ok := table.WriteElection(desired, offered, commits);
      index.hides := table.hides;
    }

    /**
      One sync. If the local catalog cannot be had nothing changes. Otherwise every
      online peer is pulled, a failing one keeping its committed pages, and the election
      reads the log and mirrors this very sync left.
     */
    method Sync(g: Given, refreshes: bool, commits: bool) returns (ok: bool, failed: set<string>)
      requires Valid() && g.Offering() <= g.known
      modifies this`mirrors, this`excluded, index`log, index`indexedAt, index`hides, table
      ensures Valid()
      ensures !ok || Synced(old(State()), g, index.strmDir, State())
      ensures !ok || ElectsInto(BallotOf(old(State()), g, State()), old(table.items), table.items)
      ensures !ok || failed == Failing(old(mirrors), g.online, g.answers, g.unmarked)
      ensures !ok ==> table.items == old(table.items) && table.hides == old(table.hides)
      ensures Rereads(old(State()), g) && (g.listing.None? || !refreshes) ==> !ok && State() == old(State())
    {
      ghost var s := State();
      ok, failed := Gather(g, refreshes);
      if ok {
        ghost var gathered := State();
        ok := ElectAndWrite(g, commits);
        if ok {
          SyncedSo(s, g, index.strmDir, gathered, State());
        }
      }
    }
  }
}
