/** The connections workspace and the clients it evicted: the host keeps a copy of every evicted
  * client's outstanding releases, fed only by announcements, and forgets a client only on its own
  * attestation. `K` identifies client objects. */
module HostMirror {
  import opened ReleaseProtocol
  import C = ReleaseCauses

  /** A client with a managed release lifecycle, or one that offers none. */
  datatype Agent<+K> = Managed(client: K) | Unmanaged(serial: nat)

  /** An `inFlight` entry: the handshake itself, then its queued `finally`. */
  datatype Handshake = Pending | Settling

  datatype Host<!K(==)> = Host(
    alive: bool,
    current: map<string, Agent<K>>,
    inFlight: map<string, Handshake>,
    retired: map<K, map<string, Status>>,
    world: map<K, Client>,      // every managed client ever handed over, with its own state
    homes: map<K, string>,      // history: the connection it was handed over for
    evicted: set<K>)            // history: every managed client ever evicted

  datatype HostEvent<+K> =
    | Connect(id: string, available: bool)
    | Connected(id: string, agent: Agent<K>)
    | ConnectFailed(id: string)
    | HandshakeSettled(id: string)
    | Reconnect(id: string, available: bool, blocked: bool, order: seq<Handle>)
    | ClientStep(client: K, event: Event)
    | Forget(client: K)
    | EndLifetime

  ghost predicate HostEnabled<K>(s: Host<K>, e: HostEvent<K>) {
    match e
    case Connected(id, agent) =>
      && id in s.inFlight && s.inFlight[id] == Pending
      && (agent.Managed? ==> agent.client !in s.world)
    case ConnectFailed(id) => id in s.inFlight && s.inFlight[id] == Pending
    case HandshakeSettled(id) => id in s.inFlight && s.inFlight[id] == Settling
    case Reconnect(id, _, _, order) =>
      id in s.current && s.current[id].Managed? && s.current[id].client in s.world ==>
        Enabled(s.world[s.current[id].client], Dispose(order))
    case ClientStep(k, event) => k in s.world && Enabled(s.world[k], event)
    case Forget(k) => k in s.evicted && k in s.world && s.world[k].drained
    case _ => true
  }

  function ConnectHost<K>(s: Host<K>, id: string, available: bool): Host<K> {
    if !available || id in s.current || id in s.inFlight then s
    else s.(inFlight := s.inFlight[id := Pending])
  }

  function ConnectedHost<K>(s: Host<K>, id: string, agent: Agent<K>): Host<K> {
    var settling := s.(inFlight := s.inFlight[id := Settling]);
    if !s.alive then settling
    else if agent.Unmanaged? then settling.(current := s.current[id := agent])
    else settling.(current := s.current[id := agent], world := s.world[agent.client := FRESH],
                   homes := s.homes[agent.client := id])
  }

  /** Eviction seeds the copy from the client's live view, subscribes, and then disposes. */
  function EvictHost<K>(s: Host<K>, id: string, order: seq<Handle>): Host<K> {
    if id !in s.current then s
    else
      var t := s.(current := s.current - {id});
      match s.current[id]
      case Unmanaged(_) => t
      case Managed(k) =>
        if k !in s.world then t
        else
          var (c, shown) := DisposeStep(s.world[k], order);
          RetireHost(t, k, c, Mirrored(Outstandings(s.world[k].book), shown))
  }

  function RetireHost<K>(s: Host<K>, k: K, c: Client, copy: map<string, Status>): Host<K> {
    s.(retired := s.retired[k := copy], world := s.world[k := c], evicted := s.evicted + {k})
  }

  /** An eviction assembled from its parts. */
  lemma EvictedFrom<K>(s: Host<K>, t: Host<K>, id: string, k: K, order: seq<Handle>, shown: seq<Effect>)
    requires id in s.current && s.current[id] == Managed(k) && k in s.world && k in t.world
    requires t.alive == s.alive && t.inFlight == s.inFlight && t.homes == s.homes
    requires t.current == s.current - {id} && t.evicted == s.evicted + {k}
    requires t.world == s.world[k := t.world[k]] && (t.world[k], shown) == DisposeStep(s.world[k], order)
    requires var seed := Outstandings(s.world[k].book); t.retired == s.retired[k := seed][k := Mirrored(seed, shown)]
    ensures t == EvictHost(s, id, order)
  {
    assert t.retired == s.retired[k := Mirrored(Outstandings(s.world[k].book), shown)];
  }

  /** One attempt of a client and the delivery of what it showed, assembled from their parts. */
  lemma AttemptedFrom<K>(s: Host<K>, t: Host<K>, k: K, order: seq<Handle>, shown: seq<Effect>)
    requires k in s.world && k in t.world && Enumerates(order, LedgerHandles(s.world[k].book))
    requires (t.world[k], shown) == RetryStartStep(s.world[k], order)
    requires t == s.(world := s.world[k := t.world[k]],
                     retired := if k in s.retired then s.retired[k := Mirrored(s.retired[k], shown)] else s.retired)
    ensures HostEnabled(s, ClientStep(k, RetryStart(order)))
    ensures t == HostStep(s, ClientStep(k, RetryStart(order)))
  {
  }

  ghost function HostStep<K>(s: Host<K>, e: HostEvent<K>): Host<K>
    requires HostEnabled(s, e)
  {
    match e
    case Connect(id, available) => ConnectHost(s, id, available)
    case Connected(id, agent) => ConnectedHost(s, id, agent)
    case ConnectFailed(id) => s.(inFlight := s.inFlight[id := Settling])
    case HandshakeSettled(id) => s.(inFlight := s.inFlight - {id})
    case Reconnect(id, available, blocked, order) =>
      if blocked then s else ConnectHost(EvictHost(s, id, order), id, available)
    case ClientStep(k, event) =>
      var (c, shown) := Step(s.world[k], event);
      s.(world := s.world[k := c],
         retired := if k in s.retired then s.retired[k := Mirrored(s.retired[k], shown)] else s.retired)
    case Forget(k) => s.(retired := s.retired - {k})
    case EndLifetime => s.(alive := false, retired := map[])
  }

  // ----- the joint invariant -----

  ghost predicate Current<K>(s: Host<K>, k: K) {
    k in s.homes && s.homes[k] in s.current && s.current[s.homes[k]] == Managed(k)
  }

  /** The host's copy is the client's ledger; a client without a copy has nothing left to say. */
  ghost predicate CopyExact<K>(s: Host<K>, k: K)
    requires k in s.world
  {
    if k in s.retired then s.retired[k] == Outstandings(s.world[k].book) else s.world[k].drained
  }

  ghost predicate WorldInv<K>(world: map<K, Client>) {
    forall k <- world :: Inv(world[k])
  }

  ghost predicate RosterInv<K>(s: Host<K>) {
    && (forall k <- s.world :: k in s.homes)
    && (forall id <- s.current :: s.current[id].Managed? ==>
          var k := s.current[id].client; k in s.world && k !in s.evicted && s.homes[k] == id)
    && (forall k <- s.retired :: k in s.evicted)
    && (forall k <- s.evicted :: k in s.world)
    && (forall id <- s.inFlight :: s.inFlight[id] == Pending ==> id !in s.current)
    && (s.alive ==> forall k <- s.world :: if k in s.evicted then CopyExact(s, k) else Current(s, k))
  }

  ghost predicate HostInv<K>(s: Host<K>) {
    WorldInv(s.world) && RosterInv(s)
  }

  /** The roster's side of one client moving to `c` while showing `shown`. */
  lemma DeliveryKeepsRoster<K>(s: Host<K>, k: K, c: Client, shown: seq<Effect>)
    requires RosterInv(s) && k in s.world && (s.world[k].drained ==> c.drained)
    requires Mirrored(Outstandings(s.world[k].book), shown) == Outstandings(c.book)
    ensures var fed := if k in s.retired then s.retired[k := Mirrored(s.retired[k], shown)] else s.retired;
            RosterInv(s.(world := s.world[k := c], retired := fed))
  {
    var t := s.(world := s.world[k := c],
                retired := if k in s.retired then s.retired[k := Mirrored(s.retired[k], shown)] else s.retired);
    forall j <- t.world | t.alive ensures if j in t.evicted then CopyExact(t, j) else Current(t, j) {
      if j in s.evicted { assert CopyExact(s, j); } else { assert Current(s, j); }
    }
  }

  lemma EvictionKeepsRoster<K>(s: Host<K>, id: string, k: K, c: Client, shown: seq<Effect>)
    requires RosterInv(s) && id in s.current && s.current[id] == Managed(k)
    requires Mirrored(Outstandings(s.world[k].book), shown) == Outstandings(c.book)
    ensures RosterInv(RetireHost(s.(current := s.current - {id}), k, c, Mirrored(Outstandings(s.world[k].book), shown)))
  {
    var t := RetireHost(s.(current := s.current - {id}), k, c, Mirrored(Outstandings(s.world[k].book), shown));
    forall j <- t.world | t.alive ensures if j in t.evicted then CopyExact(t, j) else Current(t, j) {
      if j in s.evicted { assert CopyExact(s, j); } else { assert Current(s, j); }
    }
  }

  /** One client's step seen from the roster. */
  lemma ClientMoves<K>(world: map<K, Client>, k: K, event: Event)
    requires WorldInv(world) && k in world && Enabled(world[k], event)
    ensures var (c, shown) := Step(world[k], event);
            && WorldInv(world[k := c]) && (world[k].drained ==> c.drained)
            && Mirrored(Outstandings(world[k].book), shown) == Outstandings(c.book)
  {
    StepKeepsInv(world[k], event);
    StepFaithful(world[k], event);
    if world[k].drained { SettledIsSilent(world[k], event); }
  }

  lemma EvictKeepsInv<K>(s: Host<K>, id: string, order: seq<Handle>)
    requires HostInv(s) && HostEnabled(s, Reconnect(id, true, false, order))
    ensures HostInv(EvictHost(s, id, order)) && id !in EvictHost(s, id, order).current
    ensures EvictHost(s, id, order).inFlight == s.inFlight
  {
    if id in s.current {
      match s.current[id]
      case Managed(k) =>
        ClientMoves(s.world, k, Dispose(order));
        EvictionKeepsRoster(s, id, k, DisposeStep(s.world[k], order).0, DisposeStep(s.world[k], order).1);
      case Unmanaged(_) =>
        RosterUnmoved(s, EvictHost(s, id, order));
    }
  }

  /** A roster change that leaves the clients, the copies and every current managed client alone. */
  lemma RosterUnmoved<K>(s: Host<K>, t: Host<K>)
    requires RosterInv(s) && t == s.(current := t.current, inFlight := t.inFlight, retired := t.retired)
    requires forall id :: id in t.current && t.current[id].Managed? <==> id in s.current && s.current[id].Managed?
    requires forall id <- t.current :: t.current[id].Managed? ==> t.current[id] == s.current[id]
    requires forall id <- t.inFlight :: t.inFlight[id] == Pending ==> id !in t.current
    requires t.retired == s.retired ||
             exists k <- s.retired :: t.retired == s.retired - {k} && k in s.world && s.world[k].drained
    ensures RosterInv(t)
  {
    forall j <- t.world | t.alive ensures if j in t.evicted then CopyExact(t, j) else Current(t, j) {
      if j in s.evicted { assert CopyExact(s, j); } else { assert Current(s, j); }
    }
  }

  lemma ConnectedKeepsRoster<K>(s: Host<K>, id: string, agent: Agent<K>)
    requires RosterInv(s) && HostEnabled(s, Connected(id, agent))
    ensures RosterInv(ConnectedHost(s, id, agent))
  {
    var t := ConnectedHost(s, id, agent);
    forall j <- t.world | t.alive ensures if j in t.evicted then CopyExact(t, j) else Current(t, j) {
      if j in s.world { if j in s.evicted { assert CopyExact(s, j); } else { assert Current(s, j); } }
    }
  }

  lemma ClientStepKeepsInv<K>(s: Host<K>, k: K, event: Event)
    requires HostInv(s) && HostEnabled(s, ClientStep(k, event))
    ensures HostInv(HostStep(s, ClientStep(k, event)))
  {
    var (c, shown) := Step(s.world[k], event);
    ClientMoves(s.world, k, event);
    DeliveryKeepsRoster(s, k, c, shown);
  }

  lemma ReconnectKeepsInv<K>(s: Host<K>, id: string, available: bool, order: seq<Handle>)
    requires HostInv(s) && HostEnabled(s, Reconnect(id, available, false, order))
    ensures HostInv(ConnectHost(EvictHost(s, id, order), id, available))
  {
    EvictKeepsInv(s, id, order);
    var t := EvictHost(s, id, order);
    RosterUnmoved(t, ConnectHost(t, id, available));
  }

  lemma ConnectedKeepsInv<K>(s: Host<K>, id: string, agent: Agent<K>)
    requires HostInv(s) && HostEnabled(s, Connected(id, agent))
    ensures HostInv(HostStep(s, Connected(id, agent)))
  {
    FreshInv();
    ConnectedKeepsRoster(s, id, agent);
    assert WorldInv(ConnectedHost(s, id, agent).world);
  }

  lemma RosterStepKeepsInv<K>(s: Host<K>, e: HostEvent<K>)
    requires RosterInv(s) && HostEnabled(s, e)
    requires e.Connect? || e.ConnectFailed? || e.HandshakeSettled? || e.Forget?
    ensures RosterInv(HostStep(s, e)) && HostStep(s, e).world == s.world
  {
    RosterUnmoved(s, HostStep(s, e));
  }

  lemma HostStepKeepsInv<K>(s: Host<K>, e: HostEvent<K>)
    requires HostInv(s) && HostEnabled(s, e)
    ensures HostInv(HostStep(s, e))
  {
    match e
    case ClientStep(k, event) => ClientStepKeepsInv(s, k, event);
    case Reconnect(id, available, blocked, order) => if !blocked { ReconnectKeepsInv(s, id, available, order); }
    case Connected(id, agent) => ConnectedKeepsInv(s, id, agent);
    case EndLifetime =>
    case _ => RosterStepKeepsInv(s, e);
  }

  // ----- runs -----

  function NewHost<K>(): Host<K> {
    Host(true, map[], map[], map[], map[], map[], {})
  }

  ghost predicate HostPossible<K>(s: Host<K>, events: seq<HostEvent<K>>)
    decreases |events|, 0
  {
    events == [] ||
    (HostPossible(s, events[..|events| - 1])
     && HostEnabled(HostRun(s, events[..|events| - 1]), events[|events| - 1]))
  }

  ghost function HostRun<K>(s: Host<K>, events: seq<HostEvent<K>>): Host<K>
    requires HostPossible(s, events)
    decreases |events|, 1
  {
    if events == [] then s else HostStep(HostRun(s, events[..|events| - 1]), events[|events| - 1])
  }

  lemma {:induction false} HostRunKeepsInv<K>(s: Host<K>, events: seq<HostEvent<K>>)
    requires HostInv(s) && HostPossible(s, events)
    ensures HostInv(HostRun(s, events))
  {
    if events != [] {
      HostRunKeepsInv(s, events[..|events| - 1]);
      HostStepKeepsInv(HostRun(s, events[..|events| - 1]), events[|events| - 1]);
    }
  }

  // ----- what the handlers do -----

  /** A connect without a client or a handshake starts one, its client becomes the current one as long as the workspace
    * lives, and the handshake leaves nothing behind. */
  lemma HandshakeMakesCurrent<K>(s: Host<K>, id: string, agent: Agent<K>)
    requires s.alive && id !in s.current && id !in s.inFlight && (agent.Managed? ==> agent.client !in s.world)
    ensures var a := HostStep(s, Connect(id, true));
            && HostEnabled(a, Connected(id, agent))
            && var b := HostStep(a, Connected(id, agent));
               && HostEnabled(b, HandshakeSettled(id))
               && var c := HostStep(b, HandshakeSettled(id));
                  && c.current == s.current[id := agent] && c.inFlight == s.inFlight && c.retired == s.retired
                  && (agent.Managed? ==> agent.client in c.world && c.world[agent.client] == FRESH)
  {
  }

  lemma EvictEffect<K>(s: Host<K>, id: string, order: seq<Handle>)
    requires RosterInv(s) && HostEnabled(s, Reconnect(id, true, false, order))
    ensures var t := EvictHost(s, id, order);
            && t.current == s.current - {id} && t.inFlight == s.inFlight
            && (id in s.current && s.current[id].Managed? ==>
                  var k := s.current[id].client;
                  k in t.evicted && k in t.retired && k in t.world && t.world[k].disposed)
  {
    if id in s.current && s.current[id].Managed? { C.DisposalMoves(s.world[s.current[id].client], Dispose(order)); }
  }

  /** A reconnect that is not gated retires the current client, disposed of and with a copy kept, and starts a new
    * handshake if the connection is available; a gated one changes nothing. */
  lemma ReconnectStartsAfresh<K>(s: Host<K>, id: string, available: bool, order: seq<Handle>)
    requires RosterInv(s) && HostEnabled(s, Reconnect(id, available, false, order))
    ensures HostStep(s, Reconnect(id, available, true, order)) == s
    ensures var t := HostStep(s, Reconnect(id, available, false, order));
            && t.current == s.current - {id}
            && (id in s.current && s.current[id].Managed? ==>
                  var k := s.current[id].client;
                  k in t.evicted && k in t.retired && k in t.world && t.world[k].disposed)
            && (if available && id !in s.inFlight then t.inFlight == s.inFlight[id := Pending]
                else t.inFlight == s.inFlight)
  {
    EvictEffect(s, id, order);
    var e := EvictHost(s, id, order);
    assert HostStep(s, Reconnect(id, available, false, order)) == ConnectHost(e, id, available);
  }

  ghost predicate EvictedDisposed<K>(s: Host<K>) {
    forall k <- s.evicted :: k in s.world && s.world[k].disposed
  }

  lemma EvictionDisposes<K>(s: Host<K>, id: string, order: seq<Handle>)
    requires HostEnabled(s, Reconnect(id, true, false, order)) && EvictedDisposed(s)
    ensures EvictedDisposed(EvictHost(s, id, order))
  {
    if id in s.current && s.current[id].Managed? && s.current[id].client in s.world {
      C.DisposalMoves(s.world[s.current[id].client], Dispose(order));
    }
  }

  /** Over every run, an evicted client has been disposed of. */
  lemma {:induction false} EvictedAreDisposed<K>(events: seq<HostEvent<K>>)
    requires HostPossible(NewHost(), events)
    ensures EvictedDisposed(HostRun(NewHost(), events))
  {
    if events == [] { return; }
    var init, e := events[..|events| - 1], events[|events| - 1];
    EvictedAreDisposed(init);
    var s := HostRun(NewHost(), init);
    match e
    case Reconnect(id, available, blocked, order) => if !blocked { EvictionDisposes(s, id, order); }
    case ClientStep(k, event) => C.DisposalMoves(s.world[k], event);
    case _ =>
  }

  /** One line of the host's pending-release surface, with the client it comes from. */
  datatype Pending<+K> = Line(client: K, connectionId: string, status: Status)

  /** `releaseCleanup()`: everything the retained copies hold. */
  ghost function ReleaseCleanup<K>(s: Host<K>): iset<Pending<K>> {
    iset k, id | k in s.retired && id in s.retired[k] :: Line(k, id, s.retired[k][id])
  }

  /** What is really outstanding at the clients the host has evicted. */
  ghost function TrulyOutstanding<K>(s: Host<K>): iset<Pending<K>> {
    iset k, id | k in s.evicted && k in s.world && id in s.world[k].book.ledger
      :: Line(k, id, s.world[k].book.ledger[id].status)
  }

  /** The mirror loses nothing: as long as the workspace lives, its surface is exactly the union of
    * the outstanding ledgers of every release-managed client it ever evicted. */
  lemma MirrorLosesNothing<K>(events: seq<HostEvent<K>>)
    requires HostPossible(NewHost(), events) && HostRun(NewHost(), events).alive
    ensures ReleaseCleanup(HostRun(NewHost(), events)) == TrulyOutstanding(HostRun(NewHost(), events))
  {
    HostRunKeepsInv(NewHost(), events);
    MirrorExact(HostRun(NewHost(), events));
  }

  lemma MirrorExact<K>(s: Host<K>)
    requires RosterInv(s) && s.alive && forall k <- s.world :: DrainExact(s.world[k])
    ensures ReleaseCleanup(s) == TrulyOutstanding(s)
  {
    forall k, id ensures k in s.retired && id in s.retired[k] <==> k in s.evicted && id in s.world[k].book.ledger {
      if k in s.evicted { assert CopyExact(s, k); }
    }
    assert forall k, id | k in s.retired && id in s.retired[k] ::
        s.retired[k][id] == s.world[k].book.ledger[id].status by {
      forall k | k in s.retired ensures s.retired[k] == Outstandings(s.world[k].book) { assert CopyExact(s, k); }
    }
  }

  /** A client is forgotten when it has attested, and then its copy is empty. */
  lemma ForgettingLosesNothing<K>(s: Host<K>, k: K)
    requires RosterInv(s) && s.alive && k in s.evicted && s.world[k].drained && DrainExact(s.world[k])
    ensures ReleaseCleanup(s.(retired := s.retired - {k})) == ReleaseCleanup(s)
  {
    assert CopyExact(s, k);
    assert k in s.retired ==> s.retired[k] == map[];
    var t := s.(retired := s.retired - {k});
    forall line ensures line in ReleaseCleanup(t) <==> line in ReleaseCleanup(s) {
      var Line(c, id, status) := line;
      assert line in ReleaseCleanup(s) <==> c in s.retired && id in s.retired[c] && s.retired[c][id] == status;
      assert line in ReleaseCleanup(t) <==> c in t.retired && id in t.retired[c] && t.retired[c][id] == status;
    }
  }

  /** No client is dropped: each one ever handed over is current, retained, or has attested. */
  lemma NoClientIsLost<K>(events: seq<HostEvent<K>>, k: K)
    requires HostPossible(NewHost(), events) && HostRun(NewHost(), events).alive
    requires k in HostRun(NewHost(), events).world
    ensures var s := HostRun(NewHost(), events); Current(s, k) || k in s.retired || s.world[k].drained
  {
    HostRunKeepsInv(NewHost(), events);
    var s := HostRun(NewHost(), events);
    if k in s.evicted { assert CopyExact(s, k); }
  }
}
