/**
  A network of nodes that mirror each other and whose Jellyfins also list the .strm
  files jellysync wrote: an item real nowhere does not keep itself alive.
 */
module Ghosts {
  import opened Bytes
  import opened Listing
  import opened Redirects
  import opened Feed
  import opened LocalIndex
  import opened Election
  import opened Places
  import opened Mirror
  import opened Network
  import Replication
  import Convergence

  // ------------------------------------------------- redirects are no media

  /** A file this code wrote, seen under whatever folder. */
  ghost predicate Redirect(path: string) {
    exists folder: string, out, st, id, digest ::
      PathFor(out, st, id, digest) != [] && path == folder + Last(PathFor(out, st, id, digest))
  }

  lemma SuffixOfJoined(folder: string, name: string, suffix: string)
    requires HasSuffix(name, suffix)
    ensures HasSuffix(folder + name, suffix)
  {
    assert (folder + name)[|folder + name| - |suffix|..] == name[|name| - |suffix|..];
  }

  lemma RedirectEndsInStrm(path: string)
    requires Redirect(path)
    ensures HasSuffix(path, ".strm")
  {
    var folder: string, out, st, id, digest :|
      PathFor(out, st, id, digest) != [] && path == folder + Last(PathFor(out, st, id, digest));
    PathEnds(out, st, id, digest);
    SuffixOfJoined(folder, Last(PathFor(out, st, id, digest)), ".strm");
  }

  /** Every listed redirect is recognised, however the two sides mount the folder. */
  lemma RedirectsAreRecognised(it: CatalogItem, strmDir: string)
    requires Redirect(it.path)
    ensures IsStrm(it, strmDir)
  {
    RedirectEndsInStrm(it.path);
    StrmExtension(it.path);
    StrmFoldsExactly(".strm");
  }

  /** No copy of id in the listing is real media. */
  ghost predicate NotReal(listing: seq<CatalogItem>, strmDir: string, id: string) {
    forall i | 0 <= i < |listing| && listing[i].GlobalID() == id :: !Real(listing, strmDir, listing[i])
  }

  /** A listed copy is a redirect, or a series folder some of whose episodes are listed, and only as redirects. */
  ghost predicate ShownAsRedirect(listing: seq<CatalogItem>, it: CatalogItem) {
    || Redirect(it.path)
    || (it.mediaType == "series" && HasEpisode(listing, it.GlobalID()) &&
        forall i | 0 <= i < |listing| && EpisodeOf(listing[i], it.GlobalID()) :: Redirect(listing[i].path))
  }

  /** A listing that shows id only as redirects has no real copy of it. */
  lemma OnlyRedirectsNotReal(listing: seq<CatalogItem>, strmDir: string, id: string)
    requires forall i | 0 <= i < |listing| && listing[i].GlobalID() == id :: ShownAsRedirect(listing, listing[i])
    ensures NotReal(listing, strmDir, id)
  {
    forall i | 0 <= i < |listing| && listing[i].GlobalID() == id ensures !Real(listing, strmDir, listing[i]) {
      ShownIsNotReal(listing, strmDir, listing[i]);
    }
  }

  lemma ShownIsNotReal(listing: seq<CatalogItem>, strmDir: string, it: CatalogItem)
    requires ShownAsRedirect(listing, it)
    ensures !Real(listing, strmDir, it)
  {
    if Redirect(it.path) {
      RedirectsAreRecognised(it, strmDir);
    } else {
      forall i | 0 <= i < |listing| && EpisodeOf(listing[i], it.GlobalID()) ensures IsStrm(listing[i], strmDir) {
        RedirectsAreRecognised(listing[i], strmDir);
      }
    }
  }

  /** What a node lists as its own, every entry from a real item. */
  lemma CurrentIsReal(listing: seq<CatalogItem>, strmDir: string, id: string)
    requires id in LastWins(RealEntries(listing, strmDir, |listing|))
    ensures exists i :: 0 <= i < |listing| && listing[i].GlobalID() == id && Real(listing, strmDir, listing[i])
  {
    var entries := RealEntries(listing, strmDir, |listing|);
    LastWinsExact(entries, id);
    var k :| 0 <= k < |entries| && entries[k].globalID == id;
    OfferedIsReal(listing, strmDir, |listing|, k);
  }

  /** Every movie or episode a node offers after a refresh was real media in the listing it refreshed from. */
  lemma OffersOnlyReal(before: Log, listing: seq<CatalogItem>, strmDir: string, hides: set<string>, now: int, l: Log,
                       id: string)
    requires Wf(before) && Refreshed(before, LastWins(RealEntries(listing, strmDir, |listing|)), hides, now, l)
    requires Live(l.rows, id)
    ensures exists i :: 0 <= i < |listing| && listing[i].GlobalID() == id && Real(listing, strmDir, listing[i])
  {
    var current := LastWins(RealEntries(listing, strmDir, |listing|));
    RefreshExact(before, current, hides, now, l);
    assert Reflects(l.rows, current, hides, id);
    CurrentIsReal(listing, strmDir, id);
  }

  // -------------------------------------------- one link, one item, one step

  /** Nothing the pull holds was served while the item was offered. */
  ghost predicate HeldFree(p: Pulling, id: string) {
    p.phase.Fetched? || p.phase.Listed? ==> !Offers(p.phase.snap, id)
  }

  /** A step of the pull serves only what the log offers now. */
  lemma HeldStep(s: Replication.Sys, e: Replication.Event, t: Replication.Sys, id: string)
    requires OfConsumer(e) && Replication.Next(s, e, t)
    requires !Offers(s.log, id) && (HeldFree(Pulling(s.m, s.phase), id) || e.Fetch? || e.FetchLegacy?)
    ensures HeldFree(Pulling(t.m, t.phase), id)
  {
  }

  /** A step of the pull brings the item into the mirror only from what it holds. */
  lemma MirrorStep(s: Replication.Sys, e: Replication.Event, t: Replication.Sys, id: string)
    requires Replication.Inv(s) && OfConsumer(e) && Replication.Next(s, e, t)
    requires HeldFree(Pulling(s.m, s.phase), id)
    requires id !in s.m.rows || (e.Commit? && Convergence.Completes(s, e))
    ensures id !in t.m.rows
  {
    if e.Commit? && Convergence.Completes(s, e) {
      Convergence.CompletedPullRefinesDownload(s, t);
      assert id in Contents(t.m) <==> id in t.m.rows;
    } else if e.Commit? && id in t.m.rows {
      Convergence.NothingUnofferedAppears(s, t, id);
    }
  }

  // ------------------------------------------------------- no ghosts in a run

  /** A run of the network in which, from act b on, no refresh finds id real anywhere. */
  ghost predicate GhostRun(run: seq<Net>, acts: seq<Act>, id: string, b: nat) {
    IsRun(run, acts) && forall k | b <= k < |acts| :: FindsNone(acts[k], id)
  }

  ghost predicate FindsNone(a: Act, id: string) {
    a.Refresh? ==> NotReal(a.listing, a.strmDir, id)
  }

  lemma StepAt(run: seq<Net>, acts: seq<Act>, k: nat)
    requires IsRun(run, acts) && 0 < k < |run|
    ensures Step(run[k - 1], acts[k - 1], run[k]) && NetInv(run[k - 1])
  {
    RunKeeps(run, acts, k - 1);
    assert Leads(run, acts, k - 1);
  }

  lemma KnownWf(net: Net, n: string)
    requires NetInv(net) && net.Knows(n)
    ensures Wf(net.logs[n])
  {
    assert LinkInv(net, Link(n, n));
  }

  /** The node's log is brought up to date, or lost. */
  predicate Renews(a: Act, n: string) {
    (a.Refresh? || a.Recreate?) && a.n == n
  }

  /** A log an act leaves is the one before, that of a new database, or a refreshed one. */
  lemma LogStep(net: Net, a: Act, net': Net, n: string, id: string)
    requires NetInv(net) && Step(net, a, net') && FindsNone(a, id)
    requires !Live(net.LogOf(n), id) || Renews(a, n)
    ensures !Live(net'.LogOf(n), id)
  {
    if a.Refresh? && a.n == n && Live(net'.LogOf(n), id) {
      KnownWf(net, n);
      OffersOnlyReal(net.logs[n], a.listing, a.strmDir, a.hides, a.now, net'.logs[n], id);
    }
  }

  /** From its first refresh after act b on, a node's log does not list id, whatever it listed before. */
  lemma {:induction false} LogStaysFree(run: seq<Net>, acts: seq<Act>, id: string, b: nat, n: string, k: nat, j: nat)
    requires GhostRun(run, acts, id, b) && b <= k < j < |run| && Renews(acts[k], n)
    ensures !Live(run[j].LogOf(n), id)
    decreases j
  {
    if k < j - 1 {
      LogStaysFree(run, acts, id, b, n, k, j - 1);
    }
    LogAt(run, acts, id, n, j);
  }

  lemma LogAt(run: seq<Net>, acts: seq<Act>, id: string, n: string, j: nat)
    requires IsRun(run, acts) && 0 < j < |run| && FindsNone(acts[j - 1], id)
    requires !Live(run[j - 1].LogOf(n), id) || Renews(acts[j - 1], n)
    ensures !Live(run[j].LogOf(n), id)
  {
    StepAt(run, acts, j);
    LogStep(run[j - 1], acts[j - 1], run[j], n, id);
  }

  /** The link asks its peer for a page or a whole catalog. */
  predicate Fetches(a: Act, l: Link) {
    a.Pulls? && a.l == l && (a.e.Fetch? || a.e.FetchLegacy?)
  }

  lemma HeldNetStep(net: Net, a: Act, net': Net, l: Link, id: string)
    requires Step(net, a, net') && !Live(net.LogOf(l.of), id)
    requires HeldFree(net.PullOf(l), id) || Fetches(a, l)
    ensures HeldFree(net'.PullOf(l), id)
  {
    if a.Pulls? && a.l == l {
      HeldStep(net.SysOf(l), a.e, net'.SysOf(l), id);
    }
  }

  /** Whatever a link holds after asking a refreshed peer does not list id. */
  lemma {:induction false} HeldStaysFree(run: seq<Net>, acts: seq<Act>, id: string, b: nat, l: Link, r: nat, k: nat,
                                         j: nat)
    requires GhostRun(run, acts, id, b) && b <= r < k < j < |run|
    requires Renews(acts[r], l.of) && Fetches(acts[k], l)
    ensures HeldFree(run[j].PullOf(l), id)
    decreases j
  {
    LogStaysFree(run, acts, id, b, l.of, r, j - 1);
    if k < j - 1 {
      HeldStaysFree(run, acts, id, b, l, r, k, j - 1);
    }
    HeldAt(run, acts, id, l, j);
  }

  lemma HeldAt(run: seq<Net>, acts: seq<Act>, id: string, l: Link, j: nat)
    requires IsRun(run, acts) && 0 < j < |run| && !Live(run[j - 1].LogOf(l.of), id)
    requires HeldFree(run[j - 1].PullOf(l), id) || Fetches(acts[j - 1], l)
    ensures HeldFree(run[j].PullOf(l), id)
  {
    StepAt(run, acts, j);
    HeldNetStep(run[j - 1], acts[j - 1], run[j], l, id);
  }

  /** Act a completes a pull on link l. */
  ghost predicate CompletesOn(net: Net, a: Act, l: Link) {
    a == Pulls(l, Replication.Commit) && net.Knows(l.of) && Convergence.Completes(net.SysOf(l), a.e)
  }

  lemma MirrorNetStep(net: Net, a: Act, net': Net, l: Link, id: string)
    requires NetInv(net) && Step(net, a, net') && HeldFree(net.PullOf(l), id)
    requires id !in net.PullOf(l).m.rows || CompletesOn(net, a, l)
    ensures id !in net'.PullOf(l).m.rows
  {
    if a.Pulls? && a.l == l {
      assert LinkInv(net, l);
      MirrorStep(net.SysOf(l), a.e, net'.SysOf(l), id);
    }
  }

  lemma MirrorAt(run: seq<Net>, acts: seq<Act>, id: string, l: Link, j: nat)
    requires IsRun(run, acts) && 0 < j < |run| && HeldFree(run[j - 1].PullOf(l), id)
    requires id !in run[j - 1].PullOf(l).m.rows || CompletesOn(run[j - 1], acts[j - 1], l)
    ensures id !in run[j].PullOf(l).m.rows
  {
    StepAt(run, acts, j);
    MirrorNetStep(run[j - 1], acts[j - 1], run[j], l, id);
  }

  /** Neither the link's mirror nor what its pull holds has id. */
  ghost predicate LinkFree(net: Net, l: Link, id: string) {
    HeldFree(net.PullOf(l), id) && id !in net.PullOf(l).m.rows
  }

  /** Once its peer has refreshed, a link that is free of id stays so. */
  lemma {:induction false} FreeStaysFree(run: seq<Net>, acts: seq<Act>, id: string, b: nat, l: Link, r: nat, k: nat,
                                         j: nat)
    requires GhostRun(run, acts, id, b) && b <= r < k <= j < |run| && Renews(acts[r], l.of)
    requires LinkFree(run[k], l, id)
    ensures LinkFree(run[j], l, id)
    decreases j
  {
    if k < j {
      FreeStaysFree(run, acts, id, b, l, r, k, j - 1);
      LogStaysFree(run, acts, id, b, l.of, r, j - 1);
      HeldAt(run, acts, id, l, j);
      MirrorAt(run, acts, id, l, j);
    }
  }

  /** Once a pull completes whose last answer was asked for after that, its mirror is free, whatever it held before. */
  lemma MirrorStaysFree(run: seq<Net>, acts: seq<Act>, id: string, b: nat, l: Link, r: nat, f: nat, k: nat, j: nat)
    requires GhostRun(run, acts, id, b) && b <= r < f < k < j < |run|
    requires Renews(acts[r], l.of) && Fetches(acts[f], l) && CompletesOn(run[k], acts[k], l)
    ensures id !in run[j].PullOf(l).m.rows
  {
    HeldStaysFree(run, acts, id, b, l, r, f, k);
    HeldStaysFree(run, acts, id, b, l, r, f, k + 1);
    MirrorAt(run, acts, id, l, k + 1);
    FreeStaysFree(run, acts, id, b, l, r, k + 1, j);
  }

  /** The peer is removed, or the node's own database lost: the link starts over. */
  predicate Empties(a: Act, l: Link) {
    a == Pulls(l, Replication.Prune) || (a.Recreate? && a.n == l.at)
  }

  /** The link's mirror is empty and its pull holds nothing. */
  predicate Empty(net: Net, l: Link) {
    var p := net.PullOf(l);
    p.m.rows == map[] && !p.phase.Fetched? && !p.phase.Listed?
  }

  lemma EmptiedAt(run: seq<Net>, acts: seq<Act>, l: Link, k: nat)
    requires IsRun(run, acts) && k < |acts| && Empties(acts[k], l)
    ensures Empty(run[k + 1], l)
  {
    StepAt(run, acts, k + 1);
  }

  /** A link that is not asked for anything stays empty. */
  lemma {:induction false} UnaskedStaysEmpty(run: seq<Net>, acts: seq<Act>, l: Link, k: nat, j: nat)
    requires IsRun(run, acts) && k <= j < |run| && Empty(run[k], l)
    requires forall c | k <= c < |acts| :: !Fetches(acts[c], l)
    ensures Empty(run[j], l)
    decreases j
  {
    if k < j {
      UnaskedStaysEmpty(run, acts, l, k, j - 1);
      EmptyAt(run, acts, l, j);
    }
  }

  lemma EmptyAt(run: seq<Net>, acts: seq<Act>, l: Link, j: nat)
    requires IsRun(run, acts) && 0 < j < |run| && Empty(run[j - 1], l) && !Fetches(acts[j - 1], l)
    ensures Empty(run[j], l)
  {
    StepAt(run, acts, j);
    EmptyStep(run[j - 1], acts[j - 1], run[j], l);
  }

  lemma EmptyStep(net: Net, a: Act, net': Net, l: Link)
    requires Step(net, a, net') && Empty(net, l) && !Fetches(a, l)
    ensures Empty(net', l)
  {
  }

  /** Between acts b and e, node n has refreshed or started over. */
  ghost predicate RenewedBy(acts: seq<Act>, n: string, b: nat, e: nat) {
    exists r: nat :: b <= r < e && r < |acts| && Renews(acts[r], n)
  }

  /** By act i, the link has completed a pull whose last answer it asked for after act e. */
  ghost predicate PulledBy(run: seq<Net>, acts: seq<Act>, l: Link, e: nat, i: nat)
    requires |run| == |acts| + 1
  {
    exists f: nat, c: nat :: e <= f < c < i && c < |acts| && Fetches(acts[f], l) && CompletesOn(run[c], acts[c], l)
  }

  /** Or it started over after act e. */
  ghost predicate EmptiedBy(acts: seq<Act>, l: Link, e: nat, i: nat) {
    exists c: nat :: e <= c < i && c < |acts| && Empties(acts[c], l)
  }

  /** Just before act c the link started over, or the run did, and it is not asked for anything after. */
  ghost predicate UnusedFrom(acts: seq<Act>, l: Link, c: nat) {
    && c <= |acts| && (c == 0 || Empties(acts[c - 1], l))
    && forall k | c <= k < |acts| :: !Fetches(acts[k], l)
  }

  /** Or it has not been used since it last started over, or ever. */
  ghost predicate UnusedBy(acts: seq<Act>, l: Link, i: nat) {
    exists c: nat :: c <= i && UnusedFrom(acts, l, c)
  }

  /** Neither node n's log nor any of its mirrors lists id. */
  ghost predicate FreeAt(net: Net, n: string, id: string) {
    !Live(net.LogOf(n), id) && forall peer :: id !in net.PullOf(Link(n, peer)).m.rows
  }

  lemma UnusedIsFree(run: seq<Net>, acts: seq<Act>, id: string, l: Link, i: nat, j: nat)
    requires IsRun(run, acts) && UnusedBy(acts, l, i) && i <= j < |run|
    ensures id !in run[j].PullOf(l).m.rows
  {
    var c: nat :| c <= i && UnusedFrom(acts, l, c);
    if c > 0 {
      EmptiedAt(run, acts, l, c - 1);
    }
    UnaskedStaysEmpty(run, acts, l, c, j);
  }

  lemma EmptiedIsFree(run: seq<Net>, acts: seq<Act>, id: string, b: nat, l: Link, e: nat, i: nat, j: nat)
    requires GhostRun(run, acts, id, b) && RenewedBy(acts, l.of, b, e) && EmptiedBy(acts, l, e, i) && i <= j < |run|
    ensures id !in run[j].PullOf(l).m.rows
  {
    var r: nat :| b <= r < e && r < |acts| && Renews(acts[r], l.of);
    var c: nat :| e <= c < i && c < |acts| && Empties(acts[c], l);
    EmptiedAt(run, acts, l, c);
    FreeStaysFree(run, acts, id, b, l, r, c + 1, j);
  }

  lemma PulledIsFree(run: seq<Net>, acts: seq<Act>, id: string, b: nat, l: Link, e: nat, i: nat, j: nat)
    requires GhostRun(run, acts, id, b) && RenewedBy(acts, l.of, b, e) && PulledBy(run, acts, l, e, i) && i <= j < |run|
    ensures id !in run[j].PullOf(l).m.rows
  {
    var r: nat :| b <= r < e && r < |acts| && Renews(acts[r], l.of);
    var f: nat, c: nat :| e <= f < c < i && c < |acts| && Fetches(acts[f], l) && CompletesOn(run[c], acts[c], l);
    MirrorStaysFree(run, acts, id, b, l, r, f, c, j);
  }

  /**
    Between acts b and e node n and each peer it still uses have refreshed, and by act i each link
    of n has pulled since or started over. A peer that was removed and stays so need not do anything.
   */
  ghost predicate Covers(run: seq<Net>, acts: seq<Act>, n: string, b: nat, e: nat, i: nat)
    requires |run| == |acts| + 1
  {
    RenewedBy(acts, n, b, e) && forall peer :: LinkCovered(run, acts, Link(n, peer), b, e, i)
  }

  ghost predicate LinkCovered(run: seq<Net>, acts: seq<Act>, l: Link, b: nat, e: nat, i: nat)
    requires |run| == |acts| + 1
  {
    || UnusedBy(acts, l, i)
    || (RenewedBy(acts, l.of, b, e) && (PulledBy(run, acts, l, e, i) || EmptiedBy(acts, l, e, i)))
  }

  lemma CoveredLinkFree(run: seq<Net>, acts: seq<Act>, id: string, l: Link, b: nat, e: nat, i: nat, j: nat)
    requires GhostRun(run, acts, id, b) && LinkCovered(run, acts, l, b, e, i) && i <= j < |run|
    ensures id !in run[j].PullOf(l).m.rows
  {
    if UnusedBy(acts, l, i) {
      UnusedIsFree(run, acts, id, l, i, j);
    } else if PulledBy(run, acts, l, e, i) {
      PulledIsFree(run, acts, id, b, l, e, i, j);
    } else {
      EmptiedIsFree(run, acts, id, b, l, e, i, j);
    }
  }

  lemma CoveredIsFree(run: seq<Net>, acts: seq<Act>, id: string, n: string, b: nat, e: nat, i: nat, j: nat)
    requires GhostRun(run, acts, id, b) && Covers(run, acts, n, b, e, i) && e <= i <= j < |run|
    ensures FreeAt(run[j], n, id)
  {
    var r: nat :| b <= r < e && r < |acts| && Renews(acts[r], n);
    LogStaysFree(run, acts, id, b, n, r, j);
    forall peer ensures id !in run[j].PullOf(Link(n, peer)).m.rows {
      CoveredLinkFree(run, acts, id, Link(n, peer), b, e, i, j);
    }
  }

  lemma ElectionFree(net: Net, n: string, net': Net, id: string)
    requires Step(net, Elect(n), net') && FreeAt(net, n, id)
    ensures n in net'.elected && id !in net'.elected[n]
  {
    var b: Ballot :| Reads(net, n, b) && b.IsElection(net'.elected[n]);
    assert id in net'.elected[n] <==> b.ListedBySome(id);
    forall peer ensures !b.Has(peer, id) {
      assert OfferKey(peer, id) in b.mirrors <==> id in net.PullOf(Link(n, peer)).m.rows;
    }
  }

  /** What is elected at n, if anything is, does not include id. */
  ghost predicate ElectedFree(net: Net, n: string, id: string) {
    n in net.elected ==> id !in net.elected[n]
  }

  lemma OthersElectNothing(net: Net, a: Act, net': Net, n: string, id: string)
    requires Step(net, a, net') && a != Elect(n) && ElectedFree(net, n, id)
    ensures ElectedFree(net', n, id)
  {
  }

  lemma {:induction false} ElectedStaysFree(run: seq<Net>, acts: seq<Act>, id: string, n: string, b: nat,
                                            e: nat, i: nat, k: nat, j: nat)
    requires GhostRun(run, acts, id, b) && Covers(run, acts, n, b, e, i)
    requires e <= i <= k < j < |run| && acts[k] == Elect(n)
    ensures ElectedFree(run[j], n, id)
    decreases j
  {
    CoveredIsFree(run, acts, id, n, b, e, i, j - 1);
    if k < j - 1 {
      ElectedStaysFree(run, acts, id, n, b, e, i, k, j - 1);
    }
    ElectedAt(run, acts, id, n, j);
  }

  lemma ElectedAt(run: seq<Net>, acts: seq<Act>, id: string, n: string, j: nat)
    requires IsRun(run, acts) && 0 < j < |run| && FreeAt(run[j - 1], n, id)
    requires acts[j - 1] == Elect(n) || ElectedFree(run[j - 1], n, id)
    ensures ElectedFree(run[j], n, id)
  {
    StepAt(run, acts, j);
    if acts[j - 1] == Elect(n) {
      ElectionFree(run[j - 1], n, run[j], id);
    } else {
      OthersElectNothing(run[j - 1], acts[j - 1], run[j], n, id);
    }
  }

  /**
    However the nodes mirror each other, and whoever listed or mirrored the item before: from a
    moment b on from which it is real nowhere, once every node has refreshed, then every link
    of node n completed a pull or was dropped, then n elected, the item is in neither the log
    nor any mirror of n and is not elected there, in whatever order and with whatever
    refreshes, lost databases, pages, crashes, resync requests and removed peers in between.
   */
  lemma NoGhosts(run: seq<Net>, acts: seq<Act>, id: string, n: string, b: nat, e: nat, i: nat, k: nat)
    requires GhostRun(run, acts, id, b) && Covers(run, acts, n, b, e, i)
    requires e <= i <= k < |acts| && acts[k] == Elect(n)
    ensures FreeAt(run[|run| - 1], n, id) && ElectedFree(run[|run| - 1], n, id)
  {
    CoveredIsFree(run, acts, id, n, b, e, i, |run| - 1);
    ElectedStaysFree(run, acts, id, n, b, e, i, k, |run| - 1);
  }
}
