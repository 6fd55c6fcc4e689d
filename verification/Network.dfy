/**
  Any number of nodes, each with its own log and its own pull from every peer: the
  replicated system of every link, side by side, and the elections they feed.
 */
module Network {
  import opened Listing
  import opened Feed
  import opened Mirror
  import opened LocalIndex
  import opened Election
  import Replication

  /** Node at mirrors node of. */
  datatype Link = Link(at: string, of: string)

  /** One link's mirror and the pull under way. */
  datatype Pulling = Pulling(m: Mirror, phase: Replication.Phase)

  const Unpulled: Pulling := Pulling(Mirror(Blank, map[]), Replication.Idle)

  /** Every node's log, the epochs it has used, and its elected items; every link's pull. */
  datatype Net = Net(
    logs: map<string, Log>, epochs: map<string, set<string>>, pulls: map<Link, Pulling>,
    elected: map<string, map<string, ItemState>>)
  {
    function PullOf(l: Link): Pulling {
      if l in pulls then pulls[l] else Unpulled
    }

    function LogOf(n: string): map<string, Row> {
      if n in logs then logs[n].rows else map[]
    }

    predicate Knows(n: string) {
      n in logs && n in epochs
    }

    /** The link as a provider and a consumer. */
    function SysOf(l: Link): Replication.Sys
      requires Knows(l.of)
    {
      Replication.Sys(logs[l.of], epochs[l.of], PullOf(l).m, PullOf(l).phase)
    }
  }

  datatype Act =
    | Refresh(n: string, listing: seq<CatalogItem>, strmDir: string, hides: set<string>, now: int)
    | Recreate(n: string, epoch: string)        // the node's database is lost: its log, mirrors and elected items
    | Pulls(l: Link, e: Replication.Event)      // a step of the link's pull, a resync request, or the peer removed
    | Elect(n: string)

  /** The consumer's own steps. */
  predicate OfConsumer(e: Replication.Event) {
    !e.Refresh? && !e.Recreate?
  }

  /** The ballot is node n's log and mirrors. */
  ghost predicate Reads(net: Net, n: string, b: Ballot) {
    && b.local == net.LogOf(n)
    && forall peer, id :: OfferKey(peer, id) in b.mirrors <==> id in net.PullOf(Link(n, peer)).m.rows
  }

  ghost predicate Step(net: Net, a: Act, net': Net) {
    match a
    case Refresh(n, listing, strmDir, hides, now) =>
      && net.Knows(n) && n in net'.logs
      && Refreshed(net.logs[n], LastWins(RealEntries(listing, strmDir, |listing|)), hides, now, net'.logs[n])
      && net' == net.(logs := net.logs[n := net'.logs[n]])
    case Recreate(n, epoch) =>
      && net.Knows(n) && epoch != "" && epoch !in net.epochs[n]
      && net' == Net(net.logs[n := Log(epoch, 0, 0, map[])], net.epochs[n := net.epochs[n] + {epoch}],
                     map l | l in net.pulls && l.at != n :: net.pulls[l], net.elected - {n})
    case Pulls(l, e) =>
      && net.Knows(l.of) && OfConsumer(e) && l in net'.pulls
      && net' == net.(pulls := net.pulls[l := net'.pulls[l]])
      && Replication.Next(net.SysOf(l), e, net'.SysOf(l))
    case Elect(n) =>
      && n in net'.elected && net' == net.(elected := net.elected[n := net'.elected[n]])
      && exists b: Ballot :: Reads(net, n, b) && b.IsElection(net'.elected[n])
  }

  /** Every link keeps the invariant of the replicated system. */
  ghost predicate LinkInv(net: Net, l: Link) {
    net.Knows(l.of) ==> Replication.Inv(net.SysOf(l))
  }

  ghost predicate NetInv(net: Net) {
    forall l :: LinkInv(net, l)
  }

  /** Nodes with logs of their own and nothing pulled yet. */
  ghost predicate Init(net: Net) {
    && net.pulls == map[]
    && forall n | net.Knows(n) :: Wf(net.logs[n]) && net.logs[n].epoch in net.epochs[n] && "" !in net.epochs[n]
  }

  lemma InitInv(net: Net)
    requires Init(net)
    ensures NetInv(net)
  {
    forall l ensures LinkInv(net, l) {
      if net.Knows(l.of) {
        Replication.InitInv(net.SysOf(l));
      }
    }
  }

  /** A link whose consumer loses its database starts over. */
  lemma StartsOver(s: Replication.Sys)
    requires Replication.Inv(s)
    ensures Replication.Inv(s.(m := Mirror(Blank, map[]), phase := Replication.Idle))
  {
    var idle := s.(phase := Replication.Idle);
    Replication.StepKeeps(s, Replication.Abort, idle);
    Replication.StepKeeps(idle, Replication.Prune, idle.(m := Mirror(Blank, map[])));
  }

  lemma RefreshKeepsLink(net: Net, a: Act, net': Net, l: Link)
    requires a.Refresh? && Step(net, a, net') && LinkInv(net, l)
    ensures LinkInv(net', l)
  {
    if net.Knows(l.of) && l.of == a.n {
      var current := LastWins(RealEntries(a.listing, a.strmDir, |a.listing|));
      Replication.StepKeeps(net.SysOf(l), Replication.Refresh(current, a.hides, a.now, net'.logs[a.n]), net'.SysOf(l));
    }
  }

  lemma RecreateKeepsLink(net: Net, a: Act, net': Net, l: Link)
    requires a.Recreate? && Step(net, a, net') && LinkInv(net, l)
    ensures LinkInv(net', l)
  {
    if net.Knows(l.of) {
      var s := net.SysOf(l);
      var provided := s.(log := net'.logs[l.of], epochs := net'.epochs[l.of]);
      if l.of == a.n {
        Replication.StepKeeps(s, Replication.Recreate(a.epoch), provided);
      }
      if l.at == a.n {
        StartsOver(provided);
      }
    }
  }

  lemma PullKeepsLink(net: Net, a: Act, net': Net, l: Link)
    requires a.Pulls? && Step(net, a, net') && LinkInv(net, l)
    ensures LinkInv(net', l)
  {
    if l == a.l {
      Replication.StepKeeps(net.SysOf(l), a.e, net'.SysOf(l));
    }
  }

  /** Whatever a node does, every link of the network stays in step. */
  lemma StepKeeps(net: Net, a: Act, net': Net)
    requires NetInv(net) && Step(net, a, net')
    ensures NetInv(net')
  {
    forall l ensures LinkInv(net', l) {
      assert LinkInv(net, l);
      match a
      case Refresh(_, _, _, _, _) => RefreshKeepsLink(net, a, net', l);
      case Recreate(_, _) => RecreateKeepsLink(net, a, net', l);
      case Pulls(_, _) => PullKeepsLink(net, a, net', l);
      case Elect(_) =>
    }
  }

  // ------------------------------------------------------------------- runs

  ghost predicate Leads(run: seq<Net>, acts: seq<Act>, k: nat)
    requires k < |acts| && |run| == |acts| + 1
  {
    Step(run[k], acts[k], run[k + 1])
  }

  ghost predicate IsRun(run: seq<Net>, acts: seq<Act>) {
    |run| == |acts| + 1 && Init(run[0]) && forall k | 0 <= k < |acts| :: Leads(run, acts, k)
  }

  lemma {:induction false} RunKeeps(run: seq<Net>, acts: seq<Act>, k: nat)
    requires IsRun(run, acts) && k < |run|
    ensures NetInv(run[k])
  {
    if k == 0 {
      InitInv(run[0]);
    } else {
      RunKeeps(run, acts, k - 1);
      LeadKeeps(run, acts, k - 1);
    }
  }

  lemma LeadKeeps(run: seq<Net>, acts: seq<Act>, k: nat)
    requires IsRun(run, acts) && k < |acts| && NetInv(run[k])
    ensures NetInv(run[k + 1])
  {
    assert Leads(run, acts, k);
    StepKeeps(run[k], acts[k], run[k + 1]);
  }
}
