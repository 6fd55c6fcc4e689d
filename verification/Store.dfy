/**
  Authorized clients and pending invites, in two tables and mirrored in memory
  (internal/peerauth/store.go). Any database statement may fail.
 */
module Store {
  import opened Wrappers
  import opened Namespace

  datatype Redeemed = Ok(client: Client) | Err(error: RedeemError)

  /** Only invites expired at now are gone. */
  predicate Tidied(before: map<string, int>, invites: map<string, int>, now: int) {
    && (forall p | p in before && now < before[p] :: p in invites)
    && (forall p | p in invites :: p in before && invites[p] == before[p])
  }

  class AuthStore {
    // In memory, by key pin.
    var clients: map<string, Client>
    var invites: map<string, int>
    // The tables, by key pin; a client's id is the primary key of its row.
    var clientRows: map<string, Client>
    var inviteRows: map<string, int>

    /** Memory says what the tables say, and the namespace is sound. */
    ghost predicate Valid()
      reads this
    {
      clients == clientRows && invites == inviteRows && ClientsOk(clients)
    }

    /** Loads both tables. */
    constructor (clientRows: map<string, Client>, inviteRows: map<string, int>)
      requires ClientsOk(clientRows)
      ensures Valid() && clients == clientRows && invites == inviteRows
    {
      this.clientRows, this.inviteRows := clientRows, inviteRows;
      clients, invites := clientRows, inviteRows;
    }

    /** Drops expired invites, each only once its row is gone. */
    method SweepExpired(now: int)
      requires Valid()
      modifies this`invites, this`inviteRows
      ensures Valid() && Tidied(old(invites), invites, now)
    {
      ghost var before := invites;
      var rest := invites.Keys;
      while rest != {}
        invariant rest <= before.Keys && invites == inviteRows
        invariant invites.Keys <= before.Keys && forall p | p in invites :: invites[p] == before[p]
        invariant forall p | p in before && now < before[p] :: p in invites
        invariant rest <= invites.Keys
        decreases |rest|
      {
        var p :| p in rest;
        rest := rest - {p};
        if now < invites[p] {
          continue;
        }
        var deleted: bool := *;
        if deleted {
          inviteRows := inviteRows - {p};
          invites := invites - {p};
        }
      }
    }

    /** Issues an invite with a fresh temporary key; a row already under its pin makes the insert fail. */
    method CreateInvite(pin: string, now: int, ttl: int) returns (ok: bool)
      requires Valid()
      modifies this`invites, this`inviteRows
      ensures Valid()
      ensures pin in old(invites) && now < old(invites)[pin] ==> !ok
      ensures ok ==> pin in invites && invites[pin] == now + ttl
      ensures Tidied(old(invites) - {pin}, invites - {pin}, now)
      ensures !ok ==> Tidied(old(invites), invites, now)
    {
      SweepExpired(now);
      var inserted: bool := *;
      if pin in inviteRows || !inserted {
        return false;
      }
      inviteRows := inviteRows[pin := now + ttl];
      invites := invites[pin := now + ttl];
      ok := true;
    }

    method CancelInvite(pin: string) returns (error: Option<RedeemError>)
      requires Valid()
      modifies this`invites, this`inviteRows
      ensures Valid()
      ensures pin !in old(invites) ==> error == Some(InviteInvalid)
      ensures error.None? ==> invites == old(invites) - {pin}
      ensures error.Some? ==> invites == old(invites)
    {
      if pin !in invites {
        return Some(InviteInvalid);
      }
      var deleted: bool := *;
      if !deleted {
        return Some(Database);
      }
      inviteRows := inviteRows - {pin};
      invites := invites - {pin};
      error := None;
    }

    /** Whether a client has the id. */
    method IDTaken(id: string) returns (taken: bool)
      ensures taken <==> id in ClientIDs(clients)
    {
      var rest := clients.Keys;
      while rest != {}
        invariant rest <= clients.Keys && forall p | p in clients && p !in rest :: clients[p].id != id
        decreases |rest|
      {
        var p :| p in rest;
        if clients[p].id == id {
          assert clients[p].id in ClientIDs(clients);
          return true;
        }
        rest := rest - {p};
      }
      taken := false;
    }

    /**
      Consumes the invite and authorizes pin, in one transaction. A key that is a client
      already keeps its id. A second redemption of the invite finds it gone.
     */
    method Redeem(invite: string, pin: string, name: string, id: string, now: int) returns (r: Redeemed)
      requires Valid() && pin != ""
      modifies this
      ensures Valid()
      ensures var refusal := Refusal(old(clients), old(invites), invite, pin, id, now);
              && (refusal.Some? ==> r == Err(refusal.value))
              && (refusal.None? ==> r.Ok? || r == Err(Database))
      ensures r == Err(InviteInvalid) <==> invite !in old(invites) || old(invites)[invite] <= now
      ensures r == Err(RedeemError.IDTaken) <==>
                && invite in old(invites) && now < old(invites)[invite]
                && pin !in old(clients) && exists p :: p in old(clients) && old(clients)[p].id == id
      ensures r.Ok? ==>
                r.client == if pin in old(clients) then old(clients)[pin].(name := name) else Client(id, name, now)
      ensures r.Ok? ==> clients == old(clients)[pin := r.client] && invites == old(invites) - {invite}
      ensures r.Err? ==> clients == old(clients) && invites == old(invites)
    {
      if invite !in invites || !(now < invites[invite]) {
        return Err(InviteInvalid);
      }
      var c := Client(id, name, now);
      if pin in clients {
        c := Client(clients[pin].id, name, clients[pin].created);
      } else {
        var taken := IDTaken(id);
        if taken {
          return Err(RedeemError.IDTaken);
        }
      }
      var committed: bool := *;
      if !committed {
        return Err(Database);
      }
      NewClientOk(clients, pin, c);
      inviteRows := inviteRows - {invite};
      // Inserted, or on a conflict of pins only renamed.
      clientRows := clientRows[pin := if pin in clientRows then clientRows[pin].(name := c.name) else c];
      invites := invites - {invite};
      clients := clients[pin := c];
      r := Ok(c);
    }

    /** Removes the client with the id. */
    method Revoke(id: string) returns (ok: bool)
      requires Valid()
      modifies this`clients, this`clientRows
      ensures Valid()
      ensures ok ==> id in ClientIDs(old(clients)) && id !in ClientIDs(clients)
      ensures ok ==> forall p | p in old(clients) && old(clients)[p].id != id ::
                p in clients && clients[p] == old(clients)[p]
      ensures clients.Keys <= old(clients.Keys) && (!ok ==> clients == old(clients))
    {
      var pin := "";
      var rest := clients.Keys;
      while rest != {}
        invariant rest <= clients.Keys && clients == old(clients) && clientRows == old(clientRows)
        invariant pin != "" ==> pin in clients && clients[pin].id == id
        invariant forall p | p in clients && p !in rest && clients[p].id == id :: pin != ""
        decreases |rest|
      {
        var p :| p in rest;
        rest := rest - {p};
        if clients[p].id == id {
          pin := p;
        }
      }
      if pin == "" {
        return false;
      }
      var deleted: bool := *;
      if !deleted {
        return false;
      }
      assert clients[pin].id in ClientIDs(clients);
      clientRows := clientRows - {pin};
      clients := clients - {pin};
      ok := true;
    }
  }
}
