/**
  The id namespace that peers and clients share (internal/peers/ids.go, http.go and
  registry.go; internal/peerauth/store.go): one id never names two keys.
 */
module Namespace {
  import opened Wrappers
  import opened Ids

  datatype Peer = Peer(name: string, pin: string)

  /** A node authorized to read this one's catalog. */
  datatype Client = Client(id: string, name: string, created: int)

  function ClientIDs(clients: map<string, Client>): set<string> {
    set pin | pin in clients :: clients[pin].id
  }

  /** An invite that authorized a key, and when. */
  datatype Redemption = Redemption(invite: string, key: string, at: int)

  /**
    Peers by id, clients by key pin, and pending invites, expired or not, with their expiry; issued and
    redeemed record the past.
   */
  datatype Space = Space(
    peers: map<string, Peer>, clients: map<string, Client>, invites: map<string, int>,
    issued: map<string, int>, redeemed: seq<Redemption>)
  {
    function Taken(): set<string> {
      peers.Keys + ClientIDs(clients)
    }
  }

  // ---------------------------------------------------------- picking an id

  /** An unused id for name; for a name without a slug, any unused one, as a fresh UUID is. */
  ghost predicate IsNewID(s: Space, name: string, id: string) {
    if Slug(name) == "" then id !in s.Taken() && !Reserved(id)
    else FirstFree(Slug(name), s.Taken(), id)
  }

  ghost predicate IsNewIDForPin(s: Space, name: string, pin: string, id: string) {
    if pin in s.clients && s.clients[pin].id !in s.peers then id == s.clients[pin].id
    else IsNewID(s, name, id)
  }

  predicate HasKey(s: Space, id: string, pin: string) {
    pin != "" && id in s.peers && s.peers[id].pin == pin
  }

  /** A peer added by URL that goes by name. */
  predicate Upgradable(s: Space, id: string, name: string) {
    id in s.peers && s.peers[id].pin == "" && name != "" && (s.peers[id].name == name || id == name)
  }

  /** The id for a peer just paired with: its own if it is known, else an upgraded one's, else a new one. */
  ghost predicate IsIDForRedeemed(s: Space, name: string, pin: string, id: string) {
    if exists p :: HasKey(s, p, pin) then HasKey(s, id, pin)
    else if exists p :: Upgradable(s, p, name) then Upgradable(s, id, name)
    else IsNewIDForPin(s, name, pin, id)
  }

  ghost predicate IsClientID(s: Space, name: string, pin: string, id: string) {
    if exists p :: HasKey(s, p, pin) then HasKey(s, id, pin) else IsNewID(s, name, id)
  }

  // ------------------------------------------------------------- redeeming

  datatype RedeemError = InviteInvalid | IDTaken | Database

  /** Why the invite cannot authorize pin under id, if it cannot. */
  function Refusal(clients: map<string, Client>, invites: map<string, int>, invite: string, pin: string, id: string,
                   now: int)
    : Option<RedeemError>
  {
    if invite !in invites || invites[invite] <= now then Some(InviteInvalid)
    else if pin !in clients && id in ClientIDs(clients) then Some(IDTaken)
    else None
  }

  /** The client pin becomes; one known already keeps its id. */
  function Authorized(clients: map<string, Client>, pin: string, name: string, id: string, now: int): Client {
    if pin in clients then clients[pin].(name := name) else Client(id, name, now)
  }

  // ---------------------------------------------------------- the machine

  datatype Act =
    | AddByURL(name: string, id: string)
    | Pair(name: string, pin: string, id: string)
    | Learn(id: string, name: string)  // a heartbeat corrects a peer's name
    | RemovePeer(id: string)
    | CreateInvite(invite: string, expires: int)
    | DropInvites(dropped: set<string>)  // cancelled or expired
    | Redeem(invite: string, pin: string, name: string, id: string, now: int)
    | Revoke(id: string)

  ghost predicate Next(s: Space, a: Act, t: Space) {
    match a
    case AddByURL(name, id) =>
      IsNewID(s, name, id) && t == s.(peers := s.peers[id := Peer(name, "")])
    case Pair(name, pin, id) =>
      pin != "" && IsIDForRedeemed(s, name, pin, id) && t == s.(peers := s.peers[id := Peer(name, pin)])
    case Learn(id, name) =>
      id in s.peers && t == s.(peers := s.peers[id := s.peers[id].(name := name)])
    case RemovePeer(id) =>
      t == s.(peers := s.peers - {id})
    case CreateInvite(invite, expires) =>
      invite !in s.issued && t == s.(invites := s.invites[invite := expires], issued := s.issued[invite := expires])
    case DropInvites(dropped) =>
      t == s.(invites := s.invites - dropped)
    case Redeem(invite, pin, name, id, now) =>
      && pin != "" && IsClientID(s, name, pin, id)
      && t == if Refusal(s.clients, s.invites, invite, pin, id, now).Some? then s
              else s.(clients := s.clients[pin := Authorized(s.clients, pin, name, id, now)],
                      invites := s.invites - {invite}, redeemed := s.redeemed + [Redemption(invite, pin, now)])
    case Revoke(id) =>
      t == s.(clients := map pin | pin in s.clients && s.clients[pin].id != id :: s.clients[pin])
  }

  ghost predicate Init(s: Space) {
    s == Space(map[], map[], map[], map[], [])
  }

  /** Two peers never have one key. */
  ghost predicate PeersOk(peers: map<string, Peer>) {
    forall a, b | a in peers && b in peers && a != b && peers[a].pin == peers[b].pin :: peers[a].pin == ""
  }

  /** Two clients never have one id. */
  ghost predicate ClientsOk(clients: map<string, Client>) {
    && "" !in clients
    && forall p, q | p in clients && q in clients && p != q :: clients[p].id != clients[q].id
  }

  /** A client and a peer with one id have one key. */
  ghost predicate SharedOk(peers: map<string, Peer>, clients: map<string, Client>) {
    forall pin | pin in clients && clients[pin].id in peers :: peers[clients[pin].id].pin == pin
  }

  /** Every redemption came before its invite expired; no redeemed invite is pending, and none was redeemed twice. */
  ghost predicate InvitesOk(s: Space) {
    && (forall p | p in s.invites :: p in s.issued && s.issued[p] == s.invites[p])
    && (forall k | 0 <= k < |s.redeemed| ::
          var r := s.redeemed[k];
          r.invite in s.issued && r.at < s.issued[r.invite] && r.invite !in s.invites)
    && (forall k, j | 0 <= k < j < |s.redeemed| :: s.redeemed[k].invite != s.redeemed[j].invite)
  }

  ghost predicate Inv(s: Space) {
    PeersOk(s.peers) && ClientsOk(s.clients) && SharedOk(s.peers, s.clients) && InvitesOk(s)
  }

  lemma InitInv(s: Space)
    requires Init(s)
    ensures Inv(s)
  {
  }

  lemma NewIDUnused(s: Space, name: string, id: string)
    requires IsNewID(s, name, id)
    ensures id !in s.peers && id !in ClientIDs(s.clients) && !Reserved(id)
  {
    if Slug(name) != "" {
      FirstFreeFresh(Slug(name), s.Taken(), id, id);
    }
  }

  /** An id no client has can go to any peer. */
  lemma UnsharedPeer(s: Space, id: string, p: Peer)
    requires SharedOk(s.peers, s.clients) && id !in ClientIDs(s.clients)
    ensures SharedOk(s.peers[id := p], s.clients)
  {
    forall pin | pin in s.clients ensures s.clients[pin].id != id {
      assert s.clients[pin].id in ClientIDs(s.clients);
    }
  }

  /** A keyless peer shares its id with no client. */
  lemma KeylessUnshared(s: Space, id: string)
    requires ClientsOk(s.clients) && SharedOk(s.peers, s.clients) && id in s.peers && s.peers[id].pin == ""
    ensures id !in ClientIDs(s.clients)
  {
  }

  /** Pairing keeps it: re-pairing, upgrading a peer added by URL, taking over a client's id, or a new id. */
  lemma PairKeeps(s: Space, name: string, pin: string, id: string, t: Space)
    requires Inv(s) && Next(s, Pair(name, pin, id), t)
    ensures Inv(t)
  {
    if exists p :: HasKey(s, p, pin) {
      assert HasKey(s, id, pin);
    } else {
      forall p | p in s.peers ensures s.peers[p].pin != pin {
        assert !HasKey(s, p, pin);
      }
      if exists p :: Upgradable(s, p, name) {
        KeylessUnshared(s, id);
        UnsharedPeer(s, id, Peer(name, pin));
      } else if pin in s.clients && s.clients[pin].id !in s.peers {
        assert SharedOk(t.peers, t.clients);
      } else {
        NewIDUnused(s, name, id);
        UnsharedPeer(s, id, Peer(name, pin));
      }
    }
  }

  /** With the id picked and inserted in one step, a redemption never meets a taken id. */
  lemma PickedIDNeverTaken(s: Space, invite: string, pin: string, name: string, id: string, now: int)
    requires Inv(s) && pin != "" && IsClientID(s, name, pin, id)
    ensures Refusal(s.clients, s.invites, invite, pin, id, now) != Some(IDTaken)
    ensures pin !in s.clients ==> id !in ClientIDs(s.clients) && (id in s.peers ==> s.peers[id].pin == pin)
  {
    if pin !in s.clients {
      if exists p :: HasKey(s, p, pin) {
        assert HasKey(s, id, pin);
      } else {
        NewIDUnused(s, name, id);
      }
    }
  }

  /** A redemption goes through exactly if its invite is pending and unexpired; a known client keeps its id and age. */
  lemma RedeemsExactly(s: Space, invite: string, pin: string, name: string, id: string, now: int, t: Space)
    requires Inv(s) && Next(s, Redeem(invite, pin, name, id, now), t)
    ensures |t.redeemed| > |s.redeemed| <==> invite in s.invites && now < s.invites[invite]
    ensures |t.redeemed| == |s.redeemed| ==> t == s
    ensures |t.redeemed| > |s.redeemed| ==>
              && t.peers == s.peers && t.invites == s.invites - {invite} && pin in t.clients
              && t.clients - {pin} == s.clients - {pin} && t.clients[pin].name == name
              && (pin in s.clients ==> t.clients[pin].id == s.clients[pin].id &&
                                       t.clients[pin].created == s.clients[pin].created)
              && (pin !in s.clients ==> t.clients[pin].id == id && t.clients[pin].created == now)
  {
    PickedIDNeverTaken(s, invite, pin, name, id, now);
  }

  /** A new client that is a peer goes by the peer's id; any other gets one nobody has. */
  lemma ClientIDChosen(s: Space, pin: string, name: string, id: string)
    requires pin != "" && IsClientID(s, name, pin, id)
    ensures (exists p :: p in s.peers && s.peers[p].pin == pin) ==> id in s.peers && s.peers[id].pin == pin
    ensures (forall p | p in s.peers :: s.peers[p].pin != pin) ==> Unused(s, name, id)
  {
    if p :| p in s.peers && s.peers[p].pin == pin {
      assert HasKey(s, p, pin);
    } else {
      NewIDIsUnused(s, name, id);
    }
  }

  /** Nobody has the id, it means nothing else, and it is made from the name if that has a slug. */
  ghost predicate Unused(s: Space, name: string, id: string) {
    && id !in s.peers && (forall pin | pin in s.clients :: s.clients[pin].id != id)
    && id != "local" && id != "unknown"
    && (Slug(name) != "" ==> id == Slug(name) || Slug(name) + "_" <= id)
  }

  lemma NewIDIsUnused(s: Space, name: string, id: string)
    requires IsNewID(s, name, id)
    ensures Unused(s, name, id)
  {
    NewIDUnused(s, name, id);
    if Slug(name) != "" {
      FirstFreeTaken(Slug(name), s.Taken(), id);
    }
    forall pin | pin in s.clients ensures s.clients[pin].id != id {
      assert s.clients[pin].id in ClientIDs(s.clients);
    }
  }

  /**
    Pairing again with a key, or with a node so far added by URL under its name, keeps the peer's id; pairing with
    a client's key takes the client's id if no peer has it; only else is there an id nobody had.
   */
  lemma PairChooses(s: Space, name: string, pin: string, id: string, t: Space)
    requires Next(s, Pair(name, pin, id), t)
    ensures t.clients == s.clients && t.peers.Keys == s.peers.Keys + {id} && t.peers - {id} == s.peers - {id}
    ensures t.peers[id].pin == pin && t.peers[id].name == name
    ensures (exists p :: p in s.peers && s.peers[p].pin == pin) ==> id in s.peers && s.peers[id].pin == pin
    ensures var known := exists p :: p in s.peers && s.peers[p].pin == pin;
            var byURL := name != "" &&
                         exists p :: p in s.peers && s.peers[p].pin == "" && (s.peers[p].name == name || p == name);
            && (!known && byURL ==> id in s.peers && s.peers[id].pin == "" && (s.peers[id].name == name || id == name))
            && (!known && !byURL && pin in s.clients && s.clients[pin].id !in s.peers ==> id == s.clients[pin].id)
            && (!known && !byURL && !(pin in s.clients && s.clients[pin].id !in s.peers) ==> Unused(s, name, id))
  {
    if p :| p in s.peers && s.peers[p].pin == pin {
      assert HasKey(s, p, pin);
    } else if p :| p in s.peers && s.peers[p].pin == "" && name != "" && (s.peers[p].name == name || p == name) {
      assert Upgradable(s, p, name);
    } else {
      assert forall p :: !HasKey(s, p, pin) && !Upgradable(s, p, name);
      if !(pin in s.clients && s.clients[pin].id !in s.peers) {
        NewIDIsUnused(s, name, id);
      }
    }
  }

  lemma RedeemKeeps(s: Space, invite: string, pin: string, name: string, id: string, now: int, t: Space)
    requires Inv(s) && Next(s, Redeem(invite, pin, name, id, now), t)
    ensures Inv(t)
  {
    PickedIDNeverTaken(s, invite, pin, name, id, now);
    if t != s {
      var c := Authorized(s.clients, pin, name, id, now);
      NewClientOk(s.clients, pin, c);
      NewClientShared(s.peers, s.clients, pin, c);
      RedemptionOk(s, invite, pin, now, t);
    }
  }

  /** A redeemed invite was pending and unexpired, so never redeemed before. */
  lemma RedemptionOk(s: Space, invite: string, pin: string, now: int, t: Space)
    requires InvitesOk(s) && invite in s.invites && now < s.invites[invite]
    requires t.invites == s.invites - {invite} && t.issued == s.issued &&
             t.redeemed == s.redeemed + [Redemption(invite, pin, now)]
    ensures InvitesOk(t)
  {
  }

  /** A known client keeping its id, or a new one with an unused id, keeps client ids distinct. */
  lemma NewClientOk(clients: map<string, Client>, pin: string, c: Client)
    requires ClientsOk(clients) && pin != ""
    requires if pin in clients then c.id == clients[pin].id else c.id !in ClientIDs(clients)
    ensures ClientsOk(clients[pin := c])
  {
    forall p | p in clients && p != pin ensures clients[p].id != c.id {
      assert clients[p].id in ClientIDs(clients);
    }
  }

  lemma NewClientShared(peers: map<string, Peer>, clients: map<string, Client>, pin: string, c: Client)
    requires SharedOk(peers, clients)
    requires if pin in clients then c.id == clients[pin].id else c.id in peers ==> peers[c.id].pin == pin
    ensures SharedOk(peers, clients[pin := c])
  {
  }

  /** Every act keeps it. */
  lemma NextKeeps(s: Space, a: Act, t: Space)
    requires Inv(s) && Next(s, a, t)
    ensures Inv(t)
  {
    match a
    case AddByURL(name, id) =>
      NewIDUnused(s, name, id);
      UnsharedPeer(s, id, Peer(name, ""));
    case Pair(name, pin, id) => PairKeeps(s, name, pin, id, t);
    case Redeem(invite, pin, name, id, now) => RedeemKeeps(s, invite, pin, name, id, now, t);
    case _ =>
  }

  ghost predicate Leads(run: seq<Space>, acts: seq<Act>, j: nat)
    requires j < |acts| && |run| == |acts| + 1
  {
    Next(run[j], acts[j], run[j + 1])
  }

  ghost predicate IsRun(run: seq<Space>, acts: seq<Act>) {
    && |run| == |acts| + 1 && Init(run[0])
    && forall j | 0 <= j < |acts| :: Leads(run, acts, j)
  }

  lemma LeadKeeps(run: seq<Space>, acts: seq<Act>, j: nat)
    requires IsRun(run, acts) && j < |acts| && Inv(run[j])
    ensures Inv(run[j + 1])
  {
    assert Leads(run, acts, j);
    NextKeeps(run[j], acts[j], run[j + 1]);
  }

  /** Over every run: one id never names two keys, and an invite authorizes at most one key. */
  lemma {:induction false} ReachableInv(run: seq<Space>, acts: seq<Act>, k: nat)
    requires IsRun(run, acts) && k < |run|
    ensures Inv(run[k])
  {
    if k == 0 {
      InitInv(run[0]);
    } else {
      ReachableInv(run, acts, k - 1);
      LeadKeeps(run, acts, k - 1);
    }
  }

  /** Whoever holds an id, as peer, client or both, holds it with one key. */
  lemma OneKeyPerID(s: Space, id: string, pin1: string, pin2: string)
    requires Inv(s)
    requires HasKey(s, id, pin1) || (pin1 in s.clients && s.clients[pin1].id == id)
    requires HasKey(s, id, pin2) || (pin2 in s.clients && s.clients[pin2].id == id)
    ensures pin1 == pin2
  {
  }

  // ------------------------------------------------- the registry's methods

  class Registry {
    var peers: map<string, Peer>

    ghost function WithClients(clients: map<string, Client>): Space
      reads this
    {
      Space(peers, clients, map[], map[], [])
    }

    /** uuid stands for a fresh UUID. */
    method NewID(clients: map<string, Client>, name: string, uuid: string) returns (id: string)
      requires uuid !in peers && uuid !in ClientIDs(clients) && !Reserved(uuid)
      ensures IsNewID(WithClients(clients), name, id)
    {
      id := IdFor(name, peers.Keys + ClientIDs(clients), uuid);
    }

    method NewIDForPin(clients: map<string, Client>, name: string, pin: string, uuid: string) returns (id: string)
      requires uuid !in peers && uuid !in ClientIDs(clients) && !Reserved(uuid)
      ensures IsNewIDForPin(WithClients(clients), name, pin, id)
    {
      if pin in clients && clients[pin].id !in peers {
        return clients[pin].id;
      }
      id := NewID(clients, name, uuid);
    }

    /** The first peer, in any order, with key pin. */
    method PeerByPin(pin: string) returns (id: Option<string>)
      ensures id.Some? ==> pin != "" && id.value in peers && peers[id.value].pin == pin
      ensures id.None? ==> pin == "" || forall p | p in peers :: peers[p].pin != pin
    {
      if pin == "" {
        return None;
      }
      var rest := peers.Keys;
      while rest != {}
        invariant rest <= peers.Keys && forall p | p in peers && p !in rest :: peers[p].pin != pin
        decreases |rest|
      {
        var p :| p in rest;
        if peers[p].pin == pin {
          return Some(p);
        }
        rest := rest - {p};
      }
      id := None;
    }

    method ClientID(clients: map<string, Client>, name: string, pin: string, uuid: string) returns (id: string)
      requires uuid !in peers && uuid !in ClientIDs(clients) && !Reserved(uuid)
      ensures IsClientID(WithClients(clients), name, pin, id)
    {
      var known := PeerByPin(pin);
      if known.Some? {
        assert HasKey(WithClients(clients), known.value, pin);
        return known.value;
      }
      id := NewID(clients, name, uuid);
    }

    method IdForRedeemed(clients: map<string, Client>, name: string, pin: string, uuid: string) returns (id: string)
      requires uuid !in peers && uuid !in ClientIDs(clients) && !Reserved(uuid)
      ensures IsIDForRedeemed(WithClients(clients), name, pin, id)
    {
      ghost var s := WithClients(clients);
      var known := PeerByPin(pin);
      if known.Some? {
        assert HasKey(s, known.value, pin);
        return known.value;
      }
      assert forall p :: !HasKey(s, p, pin);
      var legacy := PeerByName(clients, name);
      if legacy.Some? {
        return legacy.value;
      }
      id := NewIDForPin(clients, name, pin, uuid);
    }

    /** The first peer added by URL, in any order, that goes by name. */
    method PeerByName(ghost clients: map<string, Client>, name: string) returns (id: Option<string>)
      ensures id.Some? ==> Upgradable(WithClients(clients), id.value, name)
      ensures id.None? ==> forall p :: !Upgradable(WithClients(clients), p, name)
    {
      var rest := peers.Keys;
      while rest != {}
        invariant rest <= peers.Keys && forall p | p in peers && p !in rest ::
                    !Upgradable(WithClients(clients), p, name)
        decreases |rest|
      {
        var p :| p in rest;
        if peers[p].pin == "" && name != "" && (peers[p].name == name || p == name) {
          return Some(p);
        }
        rest := rest - {p};
      }
      id := None;
    }

    method AddPeer(id: string, name: string, pin: string) returns (ok: bool)
      modifies this
      ensures peers == if ok then old(peers)[id := Peer(name, pin)] else old(peers)
    {
      ok := *;
      if ok {
        peers := peers[id := Peer(name, pin)];
      }
    }

    /** Pairs with a peer whose node goes by name: a step of the machine, or nothing if it cannot be stored. */
    method Pair(clients: map<string, Client>, name: string, pin: string, uuid: string) returns (ok: bool, id: string)
      requires uuid !in peers && uuid !in ClientIDs(clients) && !Reserved(uuid) && pin != ""
      modifies this
      ensures ok ==> Next(old(WithClients(clients)), Act.Pair(name, pin, id), WithClients(clients))
      ensures !ok ==> peers == old(peers)
      ensures old(Inv(WithClients(clients))) ==> Inv(WithClients(clients))
    {
      ghost var s := WithClients(clients);
      id := IdForRedeemed(clients, name, pin, uuid);
      ok := AddPeer(id, name, pin);
      if ok && Inv(s) {
        PairKeeps(s, name, pin, id, WithClients(clients));
      }
    }
  }
}
