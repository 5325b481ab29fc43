/** What makes a client register, request or record: the handshakes, disposals, retries and answers of a run, read off
  * its events. */
module ReleaseCauses {
  import opened Wrappers
  import opened ReleaseProtocol

  // ----- what a step may move -----

  /** Releasing a handle moves the book and the drain flag only. */
  lemma ReleaseMovesTheBook(c: Client, h: Handle)
    ensures var d := ReleaseHandle(c, h).0; d == c.(book := d.book, drained := d.drained)
  {
  }

  lemma {:induction false} ReleaseAllMovesTheBook(c: Client, order: seq<Handle>)
    ensures var d := ReleaseAll(c, order).0; d == c.(book := d.book, drained := d.drained)
  {
    if order != [] {
      ReleaseAllMovesTheBook(c, order[..|order| - 1]);
      ReleaseMovesTheBook(ReleaseAll(c, order[..|order| - 1]).0, order[|order| - 1]);
    }
  }

  function HandleOf(phase: Phase): Option<Handle> {
    if phase.Refusing? || phase.Initializing? || phase.InitFailed? then Some(phase.handle) else None
  }

  /** Where the task an event names goes. */
  ghost predicate Goes(e: Event, from: Phase, to: Phase) {
    match e
    case ProjectOpened(_, ok) => to == if ok then Acquiring else Finished
    case Acquired(_, got) => if got.Some? then HandleOf(to) == got && !to.InitFailed? else to.Finished?
    case Initialized(_, _) => to.Finished? || (to.InitFailed? && HandleOf(to) == HandleOf(from))
    case StoodDown(_) => to.Finished?
    case _ => to == from
  }

  predicate NamesTask(e: Event) {
    e.ProjectOpened? || e.Acquired? || e.Initialized? || e.StoodDown?
  }

  /** One task moves, as the event says. */
  ghost predicate OneTaskMoves(before: Desk, after: Desk, e: Event)
    requires NamesTask(e)
  {
    && e.task in before.tasks && e.task in after.tasks && after.next == before.next
    && after.tasks == before.tasks[e.task := after.tasks[e.task]]
    && Goes(e, before.tasks[e.task].phase, after.tasks[e.task].phase)
  }

  lemma ArrivalMoves(c: Client, t: nat, got: Option<Handle>)
    requires Deliverable(c, Acquired(t, got))
    ensures OneTaskMoves(c.desk, AcquiredStep(c, t, got).0.desk, Acquired(t, got))
  {
  }

  lemma HandshakeMoves(c: Client, t: nat, ok: bool)
    requires Deliverable(c, Initialized(t, ok))
    ensures OneTaskMoves(c.desk, InitializedStep(c, t, ok).0.desk, Initialized(t, ok))
  {
  }

  lemma TaskMoves(c: Client, e: Event)
    requires Deliverable(c, e) && NamesTask(e)
    ensures OneTaskMoves(c.desk, Step(c, e).0.desk, e)
  {
    match e
    case Acquired(t, got) => ArrivalMoves(c, t, got);
    case Initialized(t, ok) => HandshakeMoves(c, t, ok);
    case _ =>
  }

  /** Every other event leaves the desk alone, starts one task, or takes one away. */
  lemma OthersMove(c: Client, e: Event)
    requires Deliverable(c, e) && !NamesTask(e)
    ensures var tasks, d := c.desk.tasks, Step(c, e).0.desk;
            || (d.next == c.desk.next && (d.tasks == tasks || exists t :: d.tasks == tasks - {t}))
            || (d.next == c.desk.next + 1 && exists p :: d.tasks == tasks[c.desk.next := Task(p, OpeningProject)])
  {
    if e.Dispose? { ReleaseAllMovesTheBook(c.(disposed := true), e.order); }
    else if e.Open? && Step(c, e).0 != c {
      assert Step(c, e).0.desk.tasks == c.desk.tasks[c.desk.next := Task(e.project, OpeningProject)];
    } else if e.TaskSettled? {
      assert Step(c, e).0.desk.tasks == c.desk.tasks - {e.task};
    }
  }

  // ----- the story of a task -----

  /** The events that name a task have left it where it stands, and a number that was named stays given. */
  ghost predicate Told(events: seq<Event>, desk: Desk, t: nat) {
    var there, phase := t in desk.tasks, if t in desk.tasks then desk.tasks[t].phase else Finished;
    && (there ==> t < desk.next && PhaseTold(events, t, phase))
    && (forall ok | ProjectOpened(t, ok) in events ::
          t < desk.next && !phase.OpeningProject? && (ok || phase.Finished?))
    && (forall got | Acquired(t, got) in events ::
          t < desk.next && (phase.Finished? || (got.Some? && HandleOf(phase) == got)))
    && (forall ok | Initialized(t, ok) in events :: t < desk.next && (phase.Finished? || phase.InitFailed?))
  }

  ghost predicate PhaseTold(events: seq<Event>, t: nat, phase: Phase) {
    && (phase.Acquiring? ==> ProjectOpened(t, true) in events)
    && (HandleOf(phase).Some? ==> Acquired(t, HandleOf(phase)) in events)
    && (phase.InitFailed? ==> Initialized(t, true) in events || Initialized(t, false) in events)
  }

  lemma ToldStays(events: seq<Event>, c: Client, e: Event, t: nat)
    requires Deliverable(c, e) && Told(events, c.desk, t) && c.desk.next !in c.desk.tasks
    ensures Told(events + [e], Step(c, e).0.desk, t)
  {
    if NamesTask(e) { TaskMoves(c, e); } else { OthersMove(c, e); }
    var d := Step(c, e).0.desk;
    assert forall x :: x in events + [e] <==> x in events || x == e;
  }

  lemma {:induction false} EveryTaskIsTold(events: seq<Event>, t: nat)
    requires Possible(FRESH, events)
    ensures Told(events, Run(FRESH, events).0.desk, t) && Inv(Run(FRESH, events).0)
  {
    FreshInv();
    RunKeepsInv(FRESH, events);
    if events != [] {
      var init, e := events[..|events| - 1], events[|events| - 1];
      EveryTaskIsTold(init, t);
      assert DeskInv(Run(FRESH, init).0.desk);
      ToldStays(init, Run(FRESH, init).0, e, t);
      assert events == init + [e];
    }
  }

  /** Only an opened project is acquired, only an acquired handle is initialized, and each once. */
  lemma HandshakeInOrder(events: seq<Event>, e: Event)
    requires Possible(FRESH, events) && Enabled(Run(FRESH, events).0, e)
    ensures e.Acquired? ==> ProjectOpened(e.task, true) in events && ProjectOpened(e.task, false) !in events
    ensures e.Acquired? ==> forall got :: Acquired(e.task, got) !in events
    ensures e.Initialized? ==> exists h :: Acquired(e.task, Some(h)) in events
    ensures e.Initialized? ==> forall ok :: Initialized(e.task, ok) !in events
  {
    if e.Acquired? || e.Initialized? { EveryTaskIsTold(events, e.task); }
  }

  // ----- registration -----

  /** The handshake of the handle succeeded. */
  ghost predicate Shook(events: seq<Event>, h: Handle) {
    exists t: nat :: Acquired(t, Some(h)) in events && Initialized(t, true) in events
  }

  lemma HandshakeMovesChannels(c: Client, t: nat, ok: bool, h: Handle)
    requires Inv(c) && Enabled(c, Initialized(t, ok)) && !c.disposed
    ensures !InitializedStep(c, t, ok).0.disposed
    ensures Registered(InitializedStep(c, t, ok).0, h) <==>
            Registered(c, h) || (ok && c.desk.tasks[t].phase == Initializing(h))
  {
    assert PhaseInv(c, c.desk.tasks[t]);
  }

  lemma OthersKeepChannels(c: Client, e: Event)
    requires Deliverable(c, e) && !e.Initialized? && !Step(c, e).0.disposed
    ensures !c.disposed && Step(c, e).0.channels == c.channels
  {
    if e.Dispose? { ReleaseAllMovesTheBook(c.(disposed := true), e.order); }
  }

  lemma ChannelsMove(c: Client, e: Event, h: Handle)
    requires Inv(c) && Enabled(c, e) && !Step(c, e).0.disposed
    ensures !c.disposed
    ensures Registered(Step(c, e).0, h) <==>
            Registered(c, h) || (e.Initialized? && e.ok && c.desk.tasks[e.task].phase == Initializing(h))
  {
    if e.Initialized? {
      DisposalMoves(c, e);
      HandshakeMovesChannels(c, e.task, e.ok, h);
    } else {
      OthersKeepChannels(c, e);
    }
  }

  lemma ShookMoves(events: seq<Event>, e: Event, h: Handle)
    requires Possible(FRESH, events) && Enabled(Run(FRESH, events).0, e)
    ensures Shook(events + [e], h) <==>
            Shook(events, h) ||
            (e.Initialized? && e.ok && Run(FRESH, events).0.desk.tasks[e.task].phase == Initializing(h))
  {
    var more := events + [e];
    assert forall x :: x in more <==> x in events || x == e;
    if Shook(more, h) {
      var t: nat :| Acquired(t, Some(h)) in more && Initialized(t, true) in more;
      EveryTaskIsTold(events, t);
      assert e == Acquired(t, Some(h)) ==> Initialized(t, true) in events;
    }
    if e.Initialized? { EveryTaskIsTold(events, e.task); }
  }

  /** As long as the client is not disposed, a handle is registered exactly when its handshake succeeded. */
  lemma {:induction false} RegisteredExactly(events: seq<Event>, h: Handle)
    requires Possible(FRESH, events) && !Run(FRESH, events).0.disposed
    ensures Registered(Run(FRESH, events).0, h) <==> Shook(events, h)
  {
    if events != [] {
      var init, e := events[..|events| - 1], events[|events| - 1];
      FreshInv();
      RunKeepsInv(FRESH, init);
      ChannelsMove(Run(FRESH, init).0, e, h);
      RegisteredExactly(init, h);
      ShookMoves(init, e, h);
      assert events == init + [e];
    }
  }

  /** A handshake that succeeds in time shows the outside nothing: its handle becomes the channel of the project that
    * was asked for, is no longer unowned and not on record, and a later open of the project joins it. */
  lemma HandshakeRegisters(events: seq<Event>, t: nat, h: Handle)
    requires Possible(FRESH, events) && t in Run(FRESH, events).0.desk.tasks && !Run(FRESH, events).0.disposed
    requires Run(FRESH, events).0.desk.tasks[t].phase == Initializing(h)
    ensures var c, project := Run(FRESH, events).0, Run(FRESH, events).0.desk.tasks[t].project;
            var (d, effects) := Step(c, Initialized(t, true));
            && effects == [] && project !in c.channels && d.channels == c.channels[project := h]
            && h !in d.unowned && !Tracked(d.book, h) && d.book == c.book
            && Step(d, Open(project)) == (d, [])
  {
    FreshInv();
    RunKeepsInv(FRESH, events);
    assert PhaseInv(Run(FRESH, events).0, Run(FRESH, events).0.desk.tasks[t]);
  }

  // ----- requests -----

  /** The event stands the handle down: a refused or failed handshake, a disposal, or its turn in a retry pass. */
  ghost predicate StandsDown(c: Client, e: Event, h: Handle)
    requires Deliverable(c, e)
  {
    match e
    case Acquired(t, got) => got == Some(h) && (h.boundProject != c.desk.tasks[t].project || c.disposed)
    case Initialized(t, ok) => c.desk.tasks[t].phase == Initializing(h) && (!ok || c.disposed)
    case Dispose(order) => !c.disposed && h in order
    case RetryStart(order) => order != [] && order[0] == h
    case RetryResume(pass) => c.retries.passes[pass] != [] && c.retries.passes[pass][0] == h
    case _ => false
  }

  predicate Spoken(b: Book, h: Handle) {
    h in b.released || h in b.releasing
  }

  lemma ReleaseRequests(c: Client, h: Handle, g: Handle)
    ensures var (d, effects) := ReleaseHandle(c, h);
            && (Request(g) in effects <==> g == h && !Spoken(c.book, h))
            && d.book.released == c.book.released
            && (g in d.book.releasing <==> g in c.book.releasing || (g == h && !Spoken(c.book, h)))
  {
  }

  lemma {:induction false} ReleaseAllRequests(c: Client, order: seq<Handle>, h: Handle)
    ensures var (d, effects) := ReleaseAll(c, order);
            && (Request(h) in effects <==> h in order && !Spoken(c.book, h))
            && d.book.released == c.book.released
            && (h in d.book.releasing <==> h in c.book.releasing || (h in order && !Spoken(c.book, h)))
  {
    if order != [] {
      var init, last := order[..|order| - 1], order[|order| - 1];
      ReleaseAllRequests(c, init, h);
      ReleaseRequests(ReleaseAll(c, init).0, last, h);
      assert order == init + [last];
    }
  }

  /** A step requests the release of a handle exactly when its event stands the handle down and no request of it is out
    * or confirmed. */
  lemma RequestedExactly(c: Client, e: Event, h: Handle)
    requires Deliverable(c, e)
    ensures Request(h) in Step(c, e).1 <==> StandsDown(c, e, h) && !Spoken(c.book, h)
    ensures StandsDown(c, e, h) ==> Spoken(Step(c, e).0.book, h)
  {
    match e
    case Acquired(t, Some(g)) => ReleaseRequests(c, g, h);
    case Initialized(t, _) => ReleaseRequests(c, c.desk.tasks[t].phase.handle, h);
    case Dispose(order) => ReleaseAllRequests(c.(disposed := true), order, h);
    case RetryStart(order) => if order != [] { ReleaseRequests(c, order[0], h); }
    case RetryResume(pass) =>
      if c.retries.passes[pass] != [] { ReleaseRequests(c, c.retries.passes[pass][0], h); }
    case _ =>
  }

  ghost predicate DisposedIn(events: seq<Event>) {
    exists order :: Dispose(order) in events
  }

  ghost predicate RetriedIn(events: seq<Event>, h: Handle) {
    exists order :: RetryStart(order) in events && h in order
  }

  /** The project task `t` was opening when the run had come this far. */
  ghost predicate AskedFor(events: seq<Event>, t: nat, project: string) {
    && Possible(FRESH, events) && t in Run(FRESH, events).0.desk.tasks
    && Run(FRESH, events).0.desk.tasks[t].project == project
  }

  /** After the events `before`, the event is a disposal or a retry that names the handle, its arrival bound to another
    * project than was asked for or at a disposed client, or the end of a handshake that failed or came too late. */
  ghost predicate Cause(before: seq<Event>, e: Event, h: Handle) {
    match e
    case Dispose(order) => h in order
    case Acquired(t, got) => got == Some(h) && (DisposedIn(before) || !AskedFor(before, t, h.boundProject))
    case Initialized(t, ok) => Acquired(t, Some(h)) in before && (!ok || DisposedIn(before))
    case RetryStart(order) => h in order
    case RetryResume(_) => RetriedIn(before, h)
    case _ => false
  }

  lemma InMore(events: seq<Event>, e: Event)
    ensures DisposedIn(events + [e]) <==> DisposedIn(events) || e.Dispose?
    ensures forall h :: RetriedIn(events + [e], h) <==> RetriedIn(events, h) || (e.RetryStart? && h in e.order)
  {
    assert forall x :: x in events + [e] <==> x in events || x == e;
  }

  lemma DisposalMoves(c: Client, e: Event)
    requires Deliverable(c, e)
    ensures Step(c, e).0.disposed == (c.disposed || e.Dispose?)
  {
    if e.Dispose? { ReleaseAllMovesTheBook(c.(disposed := true), e.order); }
  }

  lemma {:induction false} DisposedExactly(events: seq<Event>)
    requires Possible(FRESH, events)
    ensures Run(FRESH, events).0.disposed == DisposedIn(events)
  {
    if events != [] {
      var init, e := events[..|events| - 1], events[|events| - 1];
      DisposedExactly(init);
      DisposalMoves(Run(FRESH, init).0, e);
      InMore(init, e);
      assert events == init + [e];
    }
  }

  ghost predicate PassesRetried(events: seq<Event>, passes: map<nat, seq<Handle>>) {
    forall k <- passes, h <- passes[k] :: RetriedIn(events, h)
  }

  lemma PassesMove(c: Client, e: Event)
    requires Deliverable(c, e)
    ensures var before, after := c.retries, Step(c, e).0.retries;
            match e
            case RetryStart(order) =>
              if order == [] then after == before
              else after == Retries(before.passes[before.next := order[1..]], before.next + 1)
            case RetryResume(k) =>
              after.next == before.next &&
              after.passes == if before.passes[k] == [] then before.passes - {k}
                              else before.passes[k := before.passes[k][1..]]
            case _ => after == before
  {
    if e.Dispose? { ReleaseAllMovesTheBook(c.(disposed := true), e.order); }
  }

  lemma {:induction false} PassesAreRetried(events: seq<Event>)
    requires Possible(FRESH, events)
    ensures PassesRetried(events, Run(FRESH, events).0.retries.passes)
  {
    if events != [] {
      var init, e := events[..|events| - 1], events[|events| - 1];
      PassesAreRetried(init);
      PassesMove(Run(FRESH, init).0, e);
      InMore(init, e);
      assert events == init + [e];
    }
  }

  lemma StandDownHasACause(events: seq<Event>, e: Event, h: Handle)
    requires Possible(FRESH, events) && Enabled(Run(FRESH, events).0, e)
    requires StandsDown(Run(FRESH, events).0, e, h)
    ensures Cause(events, e, h)
  {
    DisposedExactly(events);
    PassesAreRetried(events);
    if e.Initialized? { EveryTaskIsTold(events, e.task); }
  }

  /** Over every run of a new client: a release is requested only by an event that calls for it. */
  lemma {:induction false} RequestHasACause(events: seq<Event>, h: Handle)
    requires Possible(FRESH, events) && Request(h) in Run(FRESH, events).1
    ensures exists i :: 0 <= i < |events| && Cause(events[..i], events[i], h)
  {
    var init, e := events[..|events| - 1], events[|events| - 1];
    if Request(h) in Run(FRESH, init).1 {
      RequestHasACause(init, h);
      var i :| 0 <= i < |init| && Cause(init[..i], init[i], h);
      assert events[..i] == init[..i] && events[i] == init[i];
    } else {
      RequestedExactly(Run(FRESH, init).0, e, h);
      StandDownHasACause(init, e, h);
      assert Cause(events[..|events| - 1], events[|events| - 1], h);
    }
  }

  // ----- a retry pass -----

  /** How often the pass was resumed. */
  function Resumes(events: seq<Event>, pass: nat): nat {
    if events == [] then 0
    else Resumes(events[..|events| - 1], pass) + if events[|events| - 1] == RetryResume(pass) then 1 else 0
  }

  /** The unvisited rest of a pass, whatever else happens meanwhile. */
  lemma {:induction false} RestOfThePass(c: Client, k: nat, rest: seq<Handle>, events: seq<Event>)
    requires Possible(c, events) && k < c.retries.next && k in c.retries.passes && c.retries.passes[k] == rest
    requires Resumes(events, k) <= |rest|
    ensures var r := Run(c, events).0.retries; k < r.next && k in r.passes && r.passes[k] == rest[Resumes(events, k)..]
  {
    if events != [] {
      var init, e := events[..|events| - 1], events[|events| - 1];
      RestOfThePass(c, k, rest, init);
      PassesMove(Run(c, init).0, e);
    }
  }

  /** A pass goes through its whole snapshot: it requests the first handle at once, and whatever else happens meanwhile,
    * the `n`-th time it is resumed the `n`-th handle after the first, unless a request of it is out or confirmed. */
  lemma PassVisitsItsSnapshot(c: Client, order: seq<Handle>, events: seq<Event>)
    requires Enabled(c, RetryStart(order)) && Possible(Step(c, RetryStart(order)).0, events)
    requires Resumes(events, c.retries.next) + 1 < |order|
    ensures Request(order[0]) in Step(c, RetryStart(order)).1 <==> !Spoken(c.book, order[0])
    ensures var d, k := Run(Step(c, RetryStart(order)).0, events).0, c.retries.next;
            var h := order[Resumes(events, k) + 1];
            && Deliverable(d, RetryResume(k))
            && (Request(h) in Step(d, RetryResume(k)).1 <==> !Spoken(d.book, h))
            && Spoken(Step(d, RetryResume(k)).0.book, h)
  {
    var a, k := Step(c, RetryStart(order)).0, c.retries.next;
    PassesMove(c, RetryStart(order));
    RestOfThePass(a, k, order[1..], events);
    RequestedExactly(c, RetryStart(order), order[0]);
    RequestedExactly(Run(a, events).0, RetryResume(k), order[Resumes(events, k) + 1]);
  }

  // ----- what the ledger tells -----

  /** What the backend answered last about the handle. */
  function LastAnswer(events: seq<Event>, h: Handle): Option<Option<string>> {
    if events == [] then None
    else
      var e := events[|events| - 1];
      if e.ReleaseAnswered? && e.handle == h then Some(e.refusal) else LastAnswer(events[..|events| - 1], h)
  }

  ghost predicate InFlightNow(b: Book, h: Handle) {
    InLedger(b, h) && b.ledger[h.connectionId].status == InFlight && h !in b.released
  }

  /** The handle's record is as it was, or its release has just gone out. */
  ghost predicate Quiet(a: Book, b: Book, h: Handle) {
    || (InFlightNow(b, h) && h !in a.released)
    || (&& (h in a.released <==> h in b.released) && (InLedger(a, h) <==> InLedger(b, h))
        && (InLedger(a, h) ==> a.ledger[h.connectionId].status == b.ledger[h.connectionId].status))
  }

  lemma ReleaseIsQuiet(c: Client, g: Handle, h: Handle)
    requires BookInv(c.book) && g in c.book.acquired && h in c.book.acquired
    ensures Quiet(c.book, ReleaseHandle(c, g).0.book, h)
  {
    assert g != h ==> g.connectionId != h.connectionId;
  }

  lemma {:induction false} ReleaseAllIsQuiet(c: Client, order: seq<Handle>, h: Handle)
    requires BookInv(c.book) && h in c.book.acquired && forall g <- order :: g in c.book.acquired
    ensures Quiet(c.book, ReleaseAll(c, order).0.book, h)
  {
    if order != [] {
      var init, last := order[..|order| - 1], order[|order| - 1];
      ReleaseAllMoves(c, init);
      ReleaseAllIsQuiet(c, init, h);
      ReleaseIsQuiet(ReleaseAll(c, init).0, last, h);
    }
  }

  lemma AnswerTells(c: Client, g: Handle, refusal: Option<string>, h: Handle)
    requires BookInv(c.book) && g in c.book.releasing && h in c.book.acquired
    ensures var b := Answer(c, g, refusal).0.book;
            if g != h then Quiet(c.book, b, h)
            else if refusal.None? then h in b.released && !InLedger(b, h)
            else h !in b.released && InLedger(b, h) && b.ledger[h.connectionId].status == Failed(refusal.value)
  {
    assert InLedger(c.book, g);
    assert g != h ==> g.connectionId != h.connectionId;
  }

  lemma ArrivalIsQuiet(c: Client, t: nat, got: Option<Handle>, h: Handle)
    requires Inv(c) && Enabled(c, Acquired(t, got)) && h in c.book.acquired
    ensures Quiet(c.book, AcquiredStep(c, t, got).0.book, h)
  {
    if got.Some? {
      ArrivalIsNew(c, t, got.value);
      assert got.value.connectionId != h.connectionId;
    }
  }

  lemma HandshakeIsQuiet(c: Client, t: nat, ok: bool, h: Handle)
    requires Inv(c) && Enabled(c, Initialized(t, ok)) && h in c.book.acquired
    ensures Quiet(c.book, InitializedStep(c, t, ok).0.book, h)
  {
    assert PhaseInv(c, c.desk.tasks[t]);
    ReleaseIsQuiet(c, c.desk.tasks[t].phase.handle, h);
  }

  lemma DisposalIsQuiet(c: Client, order: seq<Handle>, h: Handle)
    requires Inv(c) && Enabled(c, Dispose(order)) && h in c.book.acquired
    ensures Quiet(c.book, DisposeStep(c, order).0.book, h)
  {
    OwnedAreAcquired(c, order);
    ReleaseAllIsQuiet(c.(disposed := true), order, h);
  }

  lemma RetryIsQuiet(c: Client, e: Event, h: Handle)
    requires Inv(c) && Enabled(c, e) && h in c.book.acquired && (e.RetryStart? || e.RetryResume?)
    ensures Quiet(c.book, Step(c, e).0.book, h)
  {
    if e.RetryStart? {
      if e.order != [] {
        assert e.order[0] in LedgerHandles(c.book);
        ReleaseIsQuiet(c, e.order[0], h);
      }
    } else if c.retries.passes[e.pass] != [] {
      ReleaseIsQuiet(c, c.retries.passes[e.pass][0], h);
    }
  }

  lemma OthersAreQuiet(c: Client, e: Event, h: Handle)
    requires Inv(c) && Enabled(c, e) && h in c.book.acquired && !e.ReleaseAnswered?
    ensures Quiet(c.book, Step(c, e).0.book, h)
  {
    match e
    case Acquired(t, got) => ArrivalIsQuiet(c, t, got, h);
    case Initialized(t, ok) => HandshakeIsQuiet(c, t, ok, h);
    case Dispose(order) => DisposalIsQuiet(c, order, h);
    case RetryStart(_) => RetryIsQuiet(c, e, h);
    case RetryResume(_) => RetryIsQuiet(c, e, h);
    case _ =>
  }

  lemma OwnedAreAcquired(c: Client, order: seq<Handle>)
    requires Inv(c) && Enabled(c, Dispose(order))
    ensures forall h <- order :: h in c.book.acquired
  {
    forall h <- order ensures h in c.book.acquired {
      if h in c.unowned { assert PhaseInv(c, c.desk.tasks[c.desk.opening[h.boundProject]]); }
    }
  }

  /** What the last answer about a handle was, its record tells: confirmed exactly if it was a confirmation, and failed
    * for exactly the reason it gave. */
  ghost predicate TellsTheLast(b: Book, h: Handle, last: Option<Option<string>>) {
    && (h in b.released <==> last == Some(None))
    && (last.Some? && last.value.Some? ==> InLedger(b, h))
    && (InLedger(b, h) && b.ledger[h.connectionId].status.Failed? ==>
          last == Some(Some(b.ledger[h.connectionId].status.reason)))
  }

  lemma UnacquiredIsUntold(b: Book, h: Handle)
    requires BookInv(b) && h !in b.acquired
    ensures TellsTheLast(b, h, None) && h !in b.releasing
  {
  }

  lemma StepTells(c: Client, e: Event, h: Handle, last: Option<Option<string>>)
    requires Inv(c) && Enabled(c, e) && TellsTheLast(c.book, h, last) && h in c.book.acquired
    ensures TellsTheLast(Step(c, e).0.book, h,
                         if e.ReleaseAnswered? && e.handle == h then Some(e.refusal) else last)
  {
    if e.ReleaseAnswered? { AnswerTells(c, e.handle, e.refusal, h); } else { OthersAreQuiet(c, e, h); }
  }

  lemma UnansweredTells(c: Client, e: Event, h: Handle)
    requires Inv(c) && Enabled(c, e) && h !in c.book.acquired
    ensures TellsTheLast(Step(c, e).0.book, h, None) && !(e.ReleaseAnswered? && e.handle == h)
  {
    UnacquiredIsUntold(c.book, h);
    StepKeepsInv(c, e);
    AcquiredGrows(c, e);
    if h !in Step(c, e).0.book.acquired { UnacquiredIsUntold(Step(c, e).0.book, h); }
  }

  lemma {:induction false} NeverAnswered(events: seq<Event>, h: Handle)
    requires Possible(FRESH, events) && h !in Run(FRESH, events).0.book.acquired
    ensures LastAnswer(events, h) == None
  {
    if events != [] {
      var init, e := events[..|events| - 1], events[|events| - 1];
      AcquiredGrows(Run(FRESH, init).0, e);
      NeverAnswered(init, h);
      FreshInv();
      RunKeepsInv(FRESH, init);
      UnansweredTells(Run(FRESH, init).0, e, h);
    }
  }

  /** Over every run of a new client: the book tells what the backend answered last. */
  lemma {:induction false} BookTellsTheLastAnswer(events: seq<Event>, h: Handle)
    requires Possible(FRESH, events)
    ensures TellsTheLast(Run(FRESH, events).0.book, h, LastAnswer(events, h))
    ensures var b, last := Run(FRESH, events).0.book, LastAnswer(events, h);
            last.Some? && last.value.Some? && h !in b.releasing ==>
              InLedger(b, h) && b.ledger[h.connectionId] == Record(h, Failed(last.value.value))
  {
    FreshInv();
    RunKeepsInv(FRESH, events);
    if events != [] {
      var init, e := events[..|events| - 1], events[|events| - 1];
      BookTellsTheLastAnswer(init, h);
      RunKeepsInv(FRESH, init);
      var c := Run(FRESH, init).0;
      if h in c.book.acquired {
        StepTells(c, e, h, LastAnswer(init, h));
      } else {
        NeverAnswered(init, h);
        UnansweredTells(c, e, h);
      }
    }
  }
}
