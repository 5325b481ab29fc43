/** The connections workspace object: its maps are reassigned by each handler, and an eviction
  * really disposes the client object it evicts. */
module ConnectionWorkspace {
  import opened ReleaseProtocol
  import opened AcpClientRelease
  import opened HostMirror

  class Workspace {
    var disposed: bool
    var clients: map<string, Agent<AcpClient>>
    var inFlight: map<string, Handshake>
    var retired: map<AcpClient, map<string, Status>>
    ghost var world: map<AcpClient, Client>  // every managed client handed over, with its state
    ghost var homes: map<AcpClient, string>
    ghost var evicted: set<AcpClient>

    ghost predicate Valid()
      reads this, world.Keys
    {
      forall k <- world :: world[k] == k.View()
    }

    ghost function View(): Host<AcpClient>
      reads this
    {
      Host(!disposed, clients, inFlight, retired, world, homes, evicted)
    }

    constructor ()
      ensures Valid() && View() == NewHost()
    {
      disposed, clients, inFlight, retired := false, map[], map[], map[];
      world, homes, evicted := map[], map[], {};
    }

    method Connect(id: string, available: bool)
      modifies this`inFlight
      ensures View() == ConnectHost(old(View()), id, available)
    {
      if !available || id in clients || id in inFlight { return; }
      inFlight := inFlight[id := Pending];
    }

    method OnConnected(id: string, agent: Agent<AcpClient>)
      requires Valid()
      requires agent.Managed? ==> agent.client.View() == FRESH
      modifies this`clients, this`inFlight, this`world, this`homes
      ensures Valid() && View() == ConnectedHost(old(View()), id, agent)
    {
      if !disposed {
        clients := clients[id := agent];
        if agent.Managed? {
          homes := homes[agent.client := id];
          world := world[agent.client := FRESH];
        }
      }
      inFlight := inFlight[id := Settling];
    }

    /** Afterwards the id is free for a new handshake, or has a current client that a connect joins. */
    method OnHandshakeSettled(id: string)
      requires RosterInv(View())
      modifies this`inFlight
      ensures RosterInv(View()) && id !in inFlight
      ensures forall other | other != id && other in old(inFlight) ::
                other in inFlight && inFlight[other] == old(inFlight)[other]
      ensures ConnectHost(View(), id, true) ==
              if id in clients then View() else View().(inFlight := inFlight[id := Pending])
    {
      inFlight := inFlight - {id};
    }

    /** The listener registered with an evicted client, fed one batch of what the client showed. */
    method OnShown(client: AcpClient, shown: seq<Effect>)
      modifies this`retired
      ensures retired == if client in old(retired)
                         then old(retired)[client := Mirrored(old(retired)[client], shown)] else old(retired)
    {
      if client !in retired { return; }
      var states := retired[client];
      for i := 0 to |shown|
        invariant states == Mirrored(retired[client], shown[..i])
      {
        assert shown[..i + 1][..i] == shown[..i];
        if shown[i].Announce? {
          match shown[i].news {
            case Confirmed => states := states - {shown[i].handle.connectionId};
            case Outstanding(status) => states := states[shown[i].handle.connectionId := status];
          }
        }
      }
      assert shown[..|shown|] == shown;
      retired := retired[client := states];
    }

    /** Seeds the copy from the client's live view and subscribes before disposing the client, so
      * nothing the disposal announces is missed. */
    method Retire(client: AcpClient) returns (shown: seq<Effect>, ghost order: seq<Handle>)
      requires Valid() && client in world
      modifies this`retired, this`evicted, this`world, client
      ensures Valid() && Enumerates(order, old(world)[client].channels.Values + old(world)[client].unowned)
      ensures client in world && world == old(world)[client := world[client]]
      ensures (world[client], shown) == DisposeStep(old(world)[client], order)
      ensures retired == old(retired)[client := Outstandings(old(world)[client].book)]
      ensures evicted == old(evicted) + {client}
    {
      var seed := client.ReleaseStates();
      retired := retired[client := seed];
      evicted := evicted + {client};
      shown, order := client.DisposeClient();
      world := world[client := client.View()];
    }

    /** The same, with what the disposal announced applied to the copy. */
    method Dismiss(client: AcpClient) returns (shown: seq<Effect>, ghost order: seq<Handle>)
      requires Valid() && client in world
      modifies this`retired, this`evicted, this`world, client
      ensures Valid() && Enumerates(order, old(world)[client].channels.Values + old(world)[client].unowned)
      ensures client in world && world == old(world)[client := world[client]]
      ensures (world[client], shown) == DisposeStep(old(world)[client], order)
      ensures var seed := Outstandings(old(world)[client].book);
              retired == old(retired)[client := seed][client := Mirrored(seed, shown)]
      ensures evicted == old(evicted) + {client}
    {
      shown, order := Retire(client);
      OnShown(client, shown);
    }

    method Evict(id: string) returns (ghost order: seq<Handle>)
      requires Valid()
      requires id in clients && clients[id].Managed? ==> clients[id].client in world
      modifies this`clients, this`retired, this`evicted, this`world, world.Keys
      ensures Valid() && View() == EvictHost(old(View()), id, order)
      ensures id in old(clients) && old(clients)[id].Managed? ==>
                var c := old(world[clients[id].client]); Enumerates(order, c.channels.Values + c.unowned)
    {
      order := [];
      if id !in clients { return; }
      var agent := clients[id];
      clients := clients - {id};
      if agent.Managed? {
        var shown;
        shown, order := Dismiss(agent.client);
        EvictedFrom(old(View()), View(), id, agent.client, order, shown);
      }
    }

    /** The segment of `reconnect` after its await. */
    method Reconnect(id: string, available: bool, blocked: bool) returns (ghost order: seq<Handle>)
      requires Valid()
      requires id in clients && clients[id].Managed? ==> clients[id].client in world
      modifies this`clients, this`inFlight, this`retired, this`evicted, this`world, world.Keys
      ensures Valid()
      ensures View() == if blocked then old(View()) else ConnectHost(EvictHost(old(View()), id, order), id, available)
      ensures !blocked && id in old(clients) && old(clients)[id].Managed? ==>
                var c := old(world[clients[id].client]); Enumerates(order, c.channels.Values + c.unowned)
    {
      order := [];
      if blocked { return; }
      order := Evict(id);
      Connect(id, available);
    }

    /** The callback on an evicted client's `releasesSettled`: the client is forgotten, and since it attested that
      * nothing is outstanding, the surface does not change. */
    method OnReleasesSettled(client: AcpClient)
      requires RosterInv(View()) && client in evicted && world[client].drained && DrainExact(world[client])
      modifies this`retired
      ensures RosterInv(View()) && client !in retired && View().(retired := old(retired)) == old(View())
      ensures !disposed ==> ReleaseCleanup(View()) == old(ReleaseCleanup(View()))
    {
      ghost var before := View();
      retired := retired - {client};
      if !disposed {
        ForgettingLosesNothing(before, client);
        assert View() == before.(retired := before.retired - {client});
      }
    }

    /** One turn of the loop of `retryReleaseCleanup()`, up to its await: the retained client is given one further
      * attempt, and what it shows reaches the copy. */
    method RetryRelease(client: AcpClient) returns (ghost order: seq<Handle>)
      requires Valid() && client in world
      modifies this`retired, this`world, client
      ensures Valid() && HostEnabled(old(View()), ClientStep(client, RetryStart(order)))
      ensures View() == HostStep(old(View()), ClientStep(client, RetryStart(order)))
    {
      var shown;
      shown, order := Attempt(client);
      OnShown(client, shown);
      AttemptedFrom(old(View()), View(), client, order, shown);
    }

    method Attempt(client: AcpClient) returns (shown: seq<Effect>, ghost order: seq<Handle>)
      requires Valid() && client in world
      modifies this`world, client
      ensures Valid() && client in world && world == old(world)[client := world[client]]
      ensures Enumerates(order, LedgerHandles(old(world)[client].book))
      ensures (world[client], shown) == RetryStartStep(old(world)[client], order)
    {
      shown, order := client.RetryReleases();
      world := world[client := client.View()];
    }

    /** The workspace's own disposer: every subscription is gone, nothing is shown as outstanding any more, and no
      * client that still arrives becomes current. */
    method EndLifetime()
      requires HostInv(View())
      modifies this`disposed, this`retired
      ensures HostInv(View()) && View() == HostStep(old(View()), HostEvent.EndLifetime)
      ensures ReleaseCleanup(View()) == iset{}
      ensures forall id: string, agent: Agent<AcpClient> :: ConnectedHost(View(), id, agent).current == View().current
    {
      disposed := true;
      retired := map[];
    }

    /** `releaseCleanup()`: what is really outstanding at the evicted clients, line by line. */
    method ReleaseStates() returns (lines: set<HostMirror.Pending<AcpClient>>)
      requires HostInv(View())
      ensures !disposed ==> forall line :: line in lines <==> line in TrulyOutstanding(View())
      ensures forall line :: line in lines <==> line in ReleaseCleanup(View())
    {
      if !disposed { MirrorExact(View()); }
      lines := set k <- retired, id <- retired[k] :: Line(k, id, retired[k][id]);
    }
  }
}
