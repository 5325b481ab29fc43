/** The registry object: its two maps change only inside the lock sections below, one method each. */
module ChannelRegistry {
  import opened Wrappers
  import opened RegistryProtocol

  class AcpChannelRegistry {
    var byPair: map<(string, string), Channel>
    var byId: map<nat, Channel>
    ghost var published: set<Channel>
    ghost var claimant: map<Channel, nat>

    ghost function View(): Roster
      reads this
    {
      Roster(byPair, byId, published, claimant)
    }

    constructor ()
      ensures View() == EMPTY.roster
    {
      byPair, byId := map[], map[];
      published, claimant := {}, map[];
    }

    /** First section of `acquire`: a live channel of the pair is returned, never a second one. */
    method LookUp(pair: (string, string)) returns (existing: Option<Channel>)
      requires RosterInv(View())
      ensures existing.Some? ==> Registered(View(), existing.value) && existing.value.pair == pair
      ensures forall c | Registered(View(), c) && c.pair == pair :: existing == Some(c)
    {
      forall c | Registered(View(), c) ensures byPair[c.pair] == c { assert byId[c.id] == c; }
      if pair in byPair { return Some(byPair[pair]); }
      existing := None;
    }

    /** Second section of `acquire`: the winner of a concurrent open, if this one lost. */
    method PublishSection(connection: Channel) returns (winner: Option<Channel>)
      requires RosterInv(View())
      requires forall c <- published :: c.id != connection.id
      modifies this
      ensures RosterInv(View())
      ensures connection.pair in old(byPair) ==> winner == Some(old(byPair)[connection.pair]) && View() == old(View())
      ensures connection.pair !in old(byPair) ==>
                winner == None && View() == Register(old(View()), connection) && Registered(View(), connection)
    {
      if connection.pair in byPair { return Some(byPair[connection.pair]); }
      RegisterKeeps(View(), connection);
      byPair := byPair[connection.pair := connection];
      byId := byId[connection.id := connection];
      published := published + {connection};
      winner := None;
    }

    /** The connection of an id, as long as it is published and nobody has claimed it. */
    method Find(id: nat) returns (connection: Option<Channel>)
      requires RosterInv(View())
      ensures connection.Some? ==> connection.value.id == id && connection.value in published - claimant.Keys
      ensures forall c <- published - claimant.Keys :: c.id == id ==> connection == Some(c)
    {
      assert forall c :: Registered(View(), c) <==> c in published && c !in claimant;
      if id in byId { assert Registered(View(), byId[id]); }
      if id in byId { return Some(byId[id]); }
      connection := None;
    }

    /** The claim of `release` and `stop_all`: exactly one caller pops the connection. */
    method PopClaim(connection: Channel, ghost t: nat) returns (registered: bool)
      requires RosterInv(View())
      modifies this
      ensures RosterInv(View()) && !Registered(View(), connection)
      ensures registered == Registered(old(View()), connection)
      ensures View() == if registered then Claim(old(View()), t, connection) else old(View())
    {
      registered := connection.id in byId && byId[connection.id] == connection;
      if registered {
        ClaimKeeps(View(), t, connection);
        byId := byId - {connection.id};
        byPair := byPair - {connection.pair};
        claimant := claimant[connection := t];
      }
    }
  }
}
