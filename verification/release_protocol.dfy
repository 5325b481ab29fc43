/** The release lifecycle of one ACP client as a state machine: every stretch of code between two
  * awaits is one step, and the effects a step emits are what watchers and the backend see. */
module ReleaseProtocol {
  import opened Wrappers

  /** A backend channel handle. `serial` is the object identity; the ledger is keyed by `connectionId`. */
  datatype Handle = Handle(serial: nat, connectionId: string, boundProject: string)

  datatype Status = InFlight | Failed(reason: string)
  datatype Record = Record(handle: Handle, status: Status)
  datatype News = Outstanding(status: Status) | Confirmed

  /** What a step shows the outside: an announcement to the release watchers, a release request to
    * the backend, and the resolution of `releasesSettled`. */
  datatype Effect = Announce(handle: Handle, news: News) | Request(handle: Handle) | Settle

  /** Where an open-project task is parked. */
  datatype Phase =
    | OpeningProject
    | Acquiring
    | Refusing(handle: Handle)      // stood down before `initialize`
    | Initializing(handle: Handle)
    | InitFailed(handle: Handle)    // stood down after a failed `initialize`
    | Finished                      // promise settled, the `finally` callback still queued

  datatype Task = Task(project: string, phase: Phase)

  /** The release bookkeeping; `acquired` is history: every handle `acquireChannel` ever returned. */
  datatype Book = Book(
    ledger: map<string, Record>,
    releasing: set<Handle>,
    released: set<Handle>,
    acquired: set<Handle>)

  /** The `opening` map and the tasks its entries stand for. */
  datatype Desk = Desk(opening: map<string, nat>, tasks: map<nat, Task>, next: nat)

  /** `retryReleases` passes under way, each with the unvisited rest of its snapshot. */
  datatype Retries = Retries(passes: map<nat, seq<Handle>>, next: nat)

  datatype Client = Client(
    disposed: bool,
    drained: bool,
    book: Book,
    desk: Desk,
    channels: map<string, Handle>,
    unowned: set<Handle>,
    retries: Retries)

  const FRESH: Client :=
    Client(false, false, Book(map[], {}, {}, {}), Desk(map[], map[], 0), map[], {}, Retries(map[], 0))

  // ----- the steps' building blocks -----

  /** `maybeDrainReleases`. */
  function Drain(c: Client): (Client, seq<Effect>) {
    if c.drained || !c.disposed || c.book.ledger != map[] || c.unowned != {} || c.desk.opening != map[]
    then (c, [])
    else (c.(drained := true), [Settle])
  }

  function Booked(b: Book, h: Handle, news: News): Book {
    match news
    case Confirmed => b.(ledger := b.ledger - {h.connectionId})
    case Outstanding(status) => b.(ledger := b.ledger[h.connectionId := Record(h, status)])
  }

  function AnnounceRelease(c: Client, h: Handle, news: News): (Client, seq<Effect>) {
    var (d, more) := Drain(c.(book := Booked(c.book, h, news)));
    (d, [Announce(h, news)] + more)
  }

  function ReleaseHandle(c: Client, h: Handle): (Client, seq<Effect>) {
    if h in c.book.released || h in c.book.releasing then (c, [])
    else
      var (d, effects) := AnnounceRelease(c, h, Outstanding(InFlight));
      (d.(book := d.book.(releasing := d.book.releasing + {h})), effects + [Request(h)])
  }

  /** The continuation of `await handle.release()`. */
  function Answer(c: Client, h: Handle, refusal: Option<string>): (Client, seq<Effect>) {
    var (d, effects) := match refusal
      case None => AnnounceRelease(c.(book := c.book.(released := c.book.released + {h})), h, Confirmed)
      case Some(reason) => AnnounceRelease(c, h, Outstanding(Failed(reason)));
    (d.(book := d.book.(releasing := d.book.releasing - {h})), effects)
  }

  function ReleaseAll(c: Client, order: seq<Handle>): (Client, seq<Effect>) {
    if order == [] then (c, [])
    else
      var (c1, before) := ReleaseAll(c, order[..|order| - 1]);
      var (c2, last) := ReleaseHandle(c1, order[|order| - 1]);
      (c2, before + last)
  }

  function SetPhase(desk: Desk, t: nat, phase: Phase): Desk {
    if t in desk.tasks then desk.(tasks := desk.tasks[t := Task(desk.tasks[t].project, phase)]) else desk
  }

  // ----- the steps -----

  datatype Event =
    | Open(project: string)
    | ProjectOpened(task: nat, ok: bool)
    | Acquired(task: nat, got: Option<Handle>)
    | Initialized(task: nat, ok: bool)
    | StoodDown(task: nat)
    | TaskSettled(task: nat)
    | ReleaseAnswered(handle: Handle, refusal: Option<string>)
    | Dispose(order: seq<Handle>)
    | RetryStart(order: seq<Handle>)
    | RetryResume(pass: nat)

  ghost predicate Enumerates(order: seq<Handle>, handles: set<Handle>) {
    && (forall h <- order :: h in handles)
    && (forall h <- handles :: h in order)
  }

  function LedgerHandles(b: Book): set<Handle> {
    set key <- b.ledger :: b.ledger[key].handle
  }

  /** Which events the environment may deliver. Each call to `acquireChannel` brings a new handle object. */
  ghost predicate Deliverable(c: Client, e: Event) {
    var tasks := c.desk.tasks;
    match e
    case Open(_) => true
    case ProjectOpened(t, _) => t in tasks && tasks[t].phase.OpeningProject?
    case Acquired(t, got) => t in tasks && tasks[t].phase.Acquiring? && (got.Some? ==> got.value !in c.book.acquired)
    case Initialized(t, _) => t in tasks && tasks[t].phase.Initializing?
    case StoodDown(t) => t in tasks && (tasks[t].phase.Refusing? || tasks[t].phase.InitFailed?)
    case TaskSettled(t) => t in tasks && tasks[t].phase.Finished?
    case ReleaseAnswered(h, _) => h in c.book.releasing
    case Dispose(order) => Enumerates(order, c.channels.Values + c.unowned)
    case RetryStart(order) => Enumerates(order, LedgerHandles(c.book))
    case RetryResume(pass) => pass in c.retries.passes
  }

  /** A handle that arrives carries a connection id none before it did. */
  ghost predicate BringsNewId(c: Client, e: Event) {
    e.Acquired? && e.got.Some? ==> forall h <- c.book.acquired :: h.connectionId != e.got.value.connectionId
  }

  ghost predicate Enabled(c: Client, e: Event) {
    Deliverable(c, e) && BringsNewId(c, e)
  }

  /** `ensureChannel` up to its first await: a live channel or a pending attempt is joined. */
  function OpenStep(c: Client, project: string): Client {
    if c.disposed || project in c.channels || project in c.desk.opening then c
    else
      var t := c.desk.next;
      c.(desk := Desk(c.desk.opening[project := t], c.desk.tasks[t := Task(project, OpeningProject)], t + 1))
  }

  function AcquiredStep(c: Client, t: nat, got: Option<Handle>): (Client, seq<Effect>)
    requires t in c.desk.tasks
  {
    match got
    case None => (c.(desk := SetPhase(c.desk, t, Finished)), [])
    case Some(h) =>
      var c1 := c.(book := c.book.(acquired := c.book.acquired + {h}), unowned := c.unowned + {h});
      if h.boundProject != c.desk.tasks[t].project || c.disposed then
        var (c2, effects) := ReleaseHandle(c1.(unowned := c1.unowned - {h}), h);
        (c2.(desk := SetPhase(c2.desk, t, Refusing(h))), effects)
      else (c1.(desk := SetPhase(c1.desk, t, Initializing(h))), [])
  }

  function InitializedStep(c: Client, t: nat, ok: bool): (Client, seq<Effect>)
    requires t in c.desk.tasks && c.desk.tasks[t].phase.Initializing?
  {
    var h := c.desk.tasks[t].phase.handle;
    if ok && !c.disposed then
      (c.(unowned := c.unowned - {h}, channels := c.channels[h.boundProject := h],
          desk := SetPhase(c.desk, t, Finished)), [])
    else
      var (d, effects) := ReleaseHandle(c, h);
      (d.(desk := SetPhase(d.desk, t, InitFailed(h))), effects)
  }

  function StoodDownStep(c: Client, t: nat): Client
    requires t in c.desk.tasks && (c.desk.tasks[t].phase.Refusing? || c.desk.tasks[t].phase.InitFailed?)
  {
    var phase := c.desk.tasks[t].phase;
    c.(unowned := if phase.InitFailed? then c.unowned - {phase.handle} else c.unowned,
       desk := SetPhase(c.desk, t, Finished))
  }

  function TaskSettledStep(c: Client, t: nat): (Client, seq<Effect>)
    requires t in c.desk.tasks
  {
    var p := c.desk.tasks[t].project;
    var opening := if p in c.desk.opening && c.desk.opening[p] == t then c.desk.opening - {p} else c.desk.opening;
    Drain(c.(desk := c.desk.(opening := opening, tasks := c.desk.tasks - {t})))
  }

  function DisposeStep(c: Client, order: seq<Handle>): (Client, seq<Effect>) {
    if c.disposed then (c, [])
    else
      var (c1, effects) := ReleaseAll(c.(disposed := true), order);
      var (c2, more) := Drain(c1.(unowned := {}, channels := map[]));
      (c2, effects + more)
  }

  /** A pass releases the first handle of its snapshot at once and keeps the rest for later. */
  function RetryStartStep(c: Client, order: seq<Handle>): (Client, seq<Effect>) {
    if order == [] then (c, [])
    else
      var (d, effects) := ReleaseHandle(c, order[0]);
      (d.(retries := Retries(d.retries.passes[d.retries.next := order[1..]], d.retries.next + 1)), effects)
  }

  function RetryResumeStep(c: Client, pass: nat): (Client, seq<Effect>)
    requires pass in c.retries.passes
  {
    var rest := c.retries.passes[pass];
    if rest == [] then (c.(retries := c.retries.(passes := c.retries.passes - {pass})), [])
    else
      var (d, effects) := ReleaseHandle(c, rest[0]);
      (d.(retries := d.retries.(passes := d.retries.passes[pass := rest[1..]])), effects)
  }

  ghost function Step(c: Client, e: Event): (Client, seq<Effect>)
    requires Deliverable(c, e)
  {
    match e
    case Open(project) => (OpenStep(c, project), [])
    case ProjectOpened(t, ok) => (c.(desk := SetPhase(c.desk, t, if ok then Acquiring else Finished)), [])
    case Acquired(t, got) => AcquiredStep(c, t, got)
    case Initialized(t, ok) => InitializedStep(c, t, ok)
    case StoodDown(t) => (StoodDownStep(c, t), [])
    case TaskSettled(t) => TaskSettledStep(c, t)
    case ReleaseAnswered(h, refusal) => Answer(c, h, refusal)
    case Dispose(order) => DisposeStep(c, order)
    case RetryStart(order) => RetryStartStep(c, order)
    case RetryResume(pass) => RetryResumeStep(c, pass)
  }

  // ----- the joint invariant -----

  ghost predicate InLedger(b: Book, h: Handle) {
    h.connectionId in b.ledger && b.ledger[h.connectionId].handle == h
  }

  /** The handle's release is on record: outstanding in the ledger or confirmed. */
  ghost predicate Tracked(b: Book, h: Handle) {
    h in b.released || InLedger(b, h)
  }

  ghost predicate DistinctIds(handles: set<Handle>) {
    forall g, h | g in handles && h in handles && g.connectionId == h.connectionId :: g == h
  }

  ghost predicate BookInv(b: Book) {
    && DistinctIds(b.acquired)
    && (forall key <- b.ledger ::
          && b.ledger[key].handle.connectionId == key
          && b.ledger[key].handle in b.acquired
          && b.ledger[key].handle !in b.released)
    && b.released <= b.acquired
    && (forall h :: h in b.releasing <==> InLedger(b, h) && b.ledger[h.connectionId].status == InFlight)
  }

  ghost predicate ChannelInv(b: Book, channels: map<string, Handle>) {
    forall p <- channels :: channels[p].boundProject == p && channels[p] in b.acquired && !Tracked(b, channels[p])
  }

  ghost predicate PhaseInv(c: Client, task: Task) {
    && (!task.phase.Finished? ==> task.project !in c.channels)
    && match task.phase
       case Refusing(h) => h in c.book.acquired && Tracked(c.book, h)
       case Initializing(h) =>
         && h in c.book.acquired && h.boundProject == task.project
         && (if c.disposed then Tracked(c.book, h) else h in c.unowned && !Tracked(c.book, h))
       case InitFailed(h) => h in c.book.acquired && h.boundProject == task.project && Tracked(c.book, h)
       case _ => true
  }

  /** Every running task is the one `opening` names for its project, and conversely. */
  ghost predicate DeskInv(desk: Desk) {
    && (forall t <- desk.tasks ::
          t < desk.next && desk.tasks[t].project in desk.opening && desk.opening[desk.tasks[t].project] == t)
    && (forall p <- desk.opening :: desk.opening[p] in desk.tasks && desk.tasks[desk.opening[p]].project == p)
  }

  ghost predicate TaskInv(c: Client) {
    forall t <- c.desk.tasks :: PhaseInv(c, c.desk.tasks[t])
  }

  ghost predicate Holds(phase: Phase, h: Handle) {
    phase == Initializing(h) || phase == InitFailed(h)
  }

  ghost predicate Registered(c: Client, h: Handle) {
    h.boundProject in c.channels && c.channels[h.boundProject] == h
  }

  /** An unowned handle is held by the one task opening its project. */
  ghost predicate UnownedInv(desk: Desk, unowned: set<Handle>) {
    forall h <- unowned ::
      && h.boundProject in desk.opening && desk.opening[h.boundProject] in desk.tasks
      && Holds(desk.tasks[desk.opening[h.boundProject]].phase, h)
  }

  /** No handle `acquireChannel` ever returned is orphaned. */
  ghost predicate OrphanFree(c: Client) {
    forall h <- c.book.acquired :: Tracked(c.book, h) || h in c.unowned || Registered(c, h)
  }

  ghost predicate RetryInv(b: Book, r: Retries) {
    forall k <- r.passes :: k < r.next && forall h <- r.passes[k] :: h in b.acquired && Tracked(b, h)
  }

  /** What `releasesSettled` is documented to attest. */
  ghost predicate DrainExact(c: Client) {
    c.drained <==> c.disposed && c.book.ledger == map[] && c.unowned == {} && c.desk.opening == map[]
  }

  ghost predicate Ownership(c: Client) {
    && BookInv(c.book) && ChannelInv(c.book, c.channels) && DeskInv(c.desk) && TaskInv(c)
    && UnownedInv(c.desk, c.unowned) && OrphanFree(c) && RetryInv(c.book, c.retries)
    && (c.disposed ==> c.channels == map[] && c.unowned == {})
  }

  ghost predicate Inv(c: Client) {
    Ownership(c) && DrainExact(c)
  }

  // ----- preservation: the bookkeeping -----

  /** A step of the book: no handle loses its record, and only `h` may gain one. */
  ghost predicate BookMoves(a: Book, b: Book, h: Handle) {
    && BookInv(b) && b.acquired == a.acquired
    && (forall g | Tracked(a, g) :: Tracked(b, g))
    && (forall g | Tracked(b, g) :: g == h || Tracked(a, g))
  }

  lemma RequestMoves(b: Book, h: Handle)
    requires BookInv(b) && h in b.acquired && h !in b.released && h !in b.releasing
    ensures var d := Booked(b, h, Outstanding(InFlight)).(releasing := b.releasing + {h});
            BookMoves(b, d, h) && InLedger(d, h) && d.ledger != map[]
  {
    var d := Booked(b, h, Outstanding(InFlight)).(releasing := b.releasing + {h});
    assert h.connectionId in d.ledger;
    forall g ensures InLedger(d, g) <==> InLedger(b, g) || g == h {
      if InLedger(b, g) { assert g in b.acquired; }
    }
  }

  /** A confirmation moves the handle from the ledger to the confirmed set. */
  lemma ConfirmMoves(b: Book, h: Handle)
    requires BookInv(b) && h in b.releasing
    ensures var d := Booked(b.(released := b.released + {h}), h, Confirmed).(releasing := b.releasing - {h});
            BookMoves(b, d, h)
  {
    var d := Booked(b.(released := b.released + {h}), h, Confirmed).(releasing := b.releasing - {h});
    assert InLedger(b, h);
    forall g ensures InLedger(d, g) <==> InLedger(b, g) && g != h {
      if InLedger(b, g) { assert g in b.acquired; }
    }
  }

  /** A refusal keeps the handle in the ledger, no longer in flight. */
  lemma RefusalMoves(b: Book, h: Handle, reason: string)
    requires BookInv(b) && h in b.releasing
    ensures var d := Booked(b, h, Outstanding(Failed(reason))).(releasing := b.releasing - {h});
            BookMoves(b, d, h) && d.ledger != map[]
  {
    var d := Booked(b, h, Outstanding(Failed(reason))).(releasing := b.releasing - {h});
    assert InLedger(b, h);
    assert h.connectionId in d.ledger;
    forall g ensures InLedger(d, g) <==> InLedger(b, g) {
      if InLedger(b, g) { assert g in b.acquired; }
    }
  }

  lemma ReleaseHandleMoves(c: Client, h: Handle)
    requires BookInv(c.book) && h in c.book.acquired
    ensures var d := ReleaseHandle(c, h).0;
            && BookMoves(c.book, d.book, h) && Tracked(d.book, h) && d == c.(book := d.book)
            && (d.book.ledger == map[] <==> c.book.ledger == map[] && h in c.book.released)
  {
    if h in c.book.releasing {
      assert InLedger(c.book, h);
    } else if h !in c.book.released {
      RequestMoves(c.book, h);
      assert h.connectionId in Booked(c.book, h, Outstanding(InFlight)).ledger;
    }
  }

  lemma {:induction false} ReleaseAllMoves(c: Client, order: seq<Handle>)
    requires BookInv(c.book) && forall h <- order :: h in c.book.acquired
    ensures var d := ReleaseAll(c, order).0;
            && BookInv(d.book) && d == c.(book := d.book) && d.book.acquired == c.book.acquired
            && (forall h <- order :: Tracked(d.book, h))
            && (forall g | Tracked(c.book, g) :: Tracked(d.book, g))
            && (forall g | Tracked(d.book, g) :: g in order || Tracked(c.book, g))
  {
    if order != [] {
      var rest := order[..|order| - 1];
      ReleaseAllMoves(c, rest);
      ReleaseHandleMoves(ReleaseAll(c, rest).0, order[|order| - 1]);
      assert order == rest + [order[|order| - 1]];
    }
  }

  /** Ownership survives a book step of a handle that is already on record. */
  lemma BookMovesKeep(c: Client, d: Client, h: Handle)
    requires Ownership(c) && BookMoves(c.book, d.book, h) && Tracked(c.book, h)
    requires d == c.(book := d.book, drained := d.drained)
    ensures Ownership(d)
  {
    assert forall g :: Tracked(c.book, g) <==> Tracked(d.book, g);
    forall t <- d.desk.tasks ensures PhaseInv(d, d.desk.tasks[t]) { assert PhaseInv(c, c.desk.tasks[t]); }
  }

  // ----- preservation: the steps -----

  lemma AnswerKeeps(c: Client, h: Handle, refusal: Option<string>)
    requires Inv(c) && h in c.book.releasing
    ensures Inv(Answer(c, h, refusal).0)
  {
    var d := Answer(c, h, refusal).0;
    assert InLedger(c.book, h);
    if refusal.None? { ConfirmMoves(c.book, h); } else { RefusalMoves(c.book, h, refusal.value); }
    BookMovesKeep(c, d, h);
  }

  lemma OpenKeeps(c: Client, project: string)
    requires Inv(c)
    ensures Inv(OpenStep(c, project))
  {
    var d := OpenStep(c, project);
    if d != c {
      assert project in d.desk.opening;
      forall t <- d.desk.tasks ensures PhaseInv(d, d.desk.tasks[t]) {
        if t in c.desk.tasks { assert PhaseInv(c, c.desk.tasks[t]); }
      }
    }
  }

  /** A task may move on when its handle, if any, stays where the new phase wants it. */
  lemma SetPhaseKeeps(c: Client, t: nat, phase: Phase)
    requires Ownership(c) && t in c.desk.tasks && PhaseInv(c, Task(c.desk.tasks[t].project, phase))
    requires forall h <- c.unowned :: Holds(c.desk.tasks[t].phase, h) ==> Holds(phase, h)
    ensures Ownership(c.(desk := SetPhase(c.desk, t, phase)))
    ensures SetPhase(c.desk, t, phase).opening != map[]
  {
    var d := c.(desk := SetPhase(c.desk, t, phase));
    assert c.desk.tasks[t].project in d.desk.opening;
    forall u <- d.desk.tasks ensures PhaseInv(d, d.desk.tasks[u]) {
      if u != t { assert PhaseInv(c, c.desk.tasks[u]); }
    }
  }

  lemma ArrivalIsNew(c: Client, t: nat, h: Handle)
    requires Ownership(c) && Enabled(c, Acquired(t, Some(h)))
    ensures h !in c.book.acquired && !Tracked(c.book, h) && h !in c.unowned && !Registered(c, h)
  {
    assert forall key <- c.book.ledger :: c.book.ledger[key].handle in c.book.acquired;
    if h in c.unowned {
      assert PhaseInv(c, c.desk.tasks[c.desk.opening[h.boundProject]]);
    }
  }

  lemma RecordedArrivalKeeps(c: Client, a: Client, b: Client, h: Handle)
    requires Ownership(c) && a == c.(book := c.book.(acquired := c.book.acquired + {h})) && !Tracked(c.book, h)
    requires b == a.(book := b.book) && BookMoves(a.book, b.book, h) && Tracked(b.book, h) && h !in c.book.acquired
    ensures Ownership(b)
  {
    assert forall g :: Tracked(c.book, g) <==> Tracked(a.book, g);
    forall u <- b.desk.tasks ensures PhaseInv(b, b.desk.tasks[u]) { assert PhaseInv(c, c.desk.tasks[u]); }
  }

  lemma RefusedArrivalKeeps(c: Client, t: nat, h: Handle)
    requires Inv(c) && Enabled(c, Acquired(t, Some(h)))
    requires h.boundProject != c.desk.tasks[t].project || c.disposed
    ensures Inv(AcquiredStep(c, t, Some(h)).0)
  {
    ArrivalIsNew(c, t, h);
    var a := c.(book := c.book.(acquired := c.book.acquired + {h}));
    assert a == c.(book := c.book.(acquired := c.book.acquired + {h}), unowned := c.unowned + {h} - {h});
    ReleaseHandleMoves(a, h);
    var b := ReleaseHandle(a, h).0;
    RecordedArrivalKeeps(c, a, b, h);
    SetPhaseKeeps(b, t, Refusing(h));
  }

  lemma OwnedArrivalKeeps(c: Client, t: nat, h: Handle)
    requires Inv(c) && Enabled(c, Acquired(t, Some(h)))
    requires h.boundProject == c.desk.tasks[t].project && !c.disposed
    ensures Inv(AcquiredStep(c, t, Some(h)).0)
  {
    ArrivalIsNew(c, t, h);
    var d := AcquiredStep(c, t, Some(h)).0;
    assert forall g :: Tracked(c.book, g) <==> Tracked(d.book, g);
    forall u <- d.desk.tasks | u != t ensures PhaseInv(d, d.desk.tasks[u]) { assert PhaseInv(c, c.desk.tasks[u]); }
    assert PhaseInv(c, c.desk.tasks[t]);
    assert d.unowned != {} by { assert h in d.unowned; }
  }

  lemma RegisteredKeeps(c: Client, t: nat)
    requires Inv(c) && t in c.desk.tasks && c.desk.tasks[t].phase.Initializing? && !c.disposed
    ensures var h, (d, effects) := c.desk.tasks[t].phase.handle, InitializedStep(c, t, true);
            && Inv(d) && effects == [] && d.channels == c.channels[h.boundProject := h]
            && h.boundProject == c.desk.tasks[t].project && d.unowned == c.unowned - {h}
  {
    var h := c.desk.tasks[t].phase.handle;
    var d := InitializedStep(c, t, true).0;
    assert PhaseInv(c, c.desk.tasks[t]);
    forall u <- d.desk.tasks | u != t ensures PhaseInv(d, d.desk.tasks[u]) {
      assert PhaseInv(c, c.desk.tasks[u]);
      assert c.desk.tasks[u].project != c.desk.tasks[t].project;
    }
    forall g <- d.book.acquired ensures Tracked(d.book, g) || g in d.unowned || Registered(d, g) {
      assert Registered(c, g) ==> Registered(d, g);
    }
  }

  lemma InitFailedKeeps(c: Client, t: nat, ok: bool)
    requires Inv(c) && t in c.desk.tasks && c.desk.tasks[t].phase.Initializing? && (!ok || c.disposed)
    ensures Inv(InitializedStep(c, t, ok).0)
  {
    var h := c.desk.tasks[t].phase.handle;
    assert PhaseInv(c, c.desk.tasks[t]);
    ReleaseHandleMoves(c, h);
    var d := InitializedStep(c, t, ok).0;
    assert c.desk.tasks[t].project in d.desk.opening;
    forall u <- d.desk.tasks | u != t ensures PhaseInv(d, d.desk.tasks[u]) {
      assert PhaseInv(c, c.desk.tasks[u]);
      assert c.desk.tasks[u].project != c.desk.tasks[t].project;
    }
  }

  lemma StoodDownKeeps(c: Client, t: nat)
    requires Inv(c) && Enabled(c, StoodDown(t))
    ensures Inv(StoodDownStep(c, t))
  {
    var d := StoodDownStep(c, t);
    assert PhaseInv(c, c.desk.tasks[t]);
    assert c.desk.tasks[t].project in d.desk.opening;
    forall u <- d.desk.tasks | u != t ensures PhaseInv(d, d.desk.tasks[u]) {
      assert PhaseInv(c, c.desk.tasks[u]);
      assert c.desk.tasks[u].project != c.desk.tasks[t].project;
    }
  }

  lemma TaskSettledKeeps(c: Client, t: nat)
    requires Inv(c) && Enabled(c, TaskSettled(t))
    ensures Inv(TaskSettledStep(c, t).0)
  {
    var d := TaskSettledStep(c, t).0;
    assert c.desk.tasks[t].project in c.desk.opening;
    forall u <- d.desk.tasks ensures PhaseInv(d, d.desk.tasks[u]) { assert PhaseInv(c, c.desk.tasks[u]); }
  }

  lemma DisposeKeeps(c: Client, order: seq<Handle>)
    requires Inv(c) && Enabled(c, Dispose(order))
    ensures Inv(DisposeStep(c, order).0)
  {
    if !c.disposed {
      forall h <- order ensures h in c.book.acquired {
        if h in c.unowned { assert PhaseInv(c, c.desk.tasks[c.desk.opening[h.boundProject]]); }
      }
      ReleaseAllMoves(c.(disposed := true), order);
      var d := DisposeStep(c, order).0;
      forall t <- d.desk.tasks ensures PhaseInv(d, d.desk.tasks[t]) { assert PhaseInv(c, c.desk.tasks[t]); }
      assert forall h <- c.unowned :: h in order;
    }
  }

  lemma ReleaseAgainKeeps(c: Client, h: Handle)
    requires Inv(c) && h in c.book.acquired && Tracked(c.book, h)
    ensures Inv(ReleaseHandle(c, h).0)
    ensures BookMoves(c.book, ReleaseHandle(c, h).0.book, h)
    ensures ReleaseHandle(c, h).0 == c.(book := ReleaseHandle(c, h).0.book)
  {
    ReleaseHandleMoves(c, h);
    BookMovesKeep(c, ReleaseHandle(c, h).0, h);
    assert InLedger(c.book, h) ==> h.connectionId in c.book.ledger;
  }

  lemma RetryStartKeeps(c: Client, order: seq<Handle>)
    requires Inv(c) && Enabled(c, RetryStart(order))
    ensures Inv(RetryStartStep(c, order).0)
  {
    if order != [] {
      forall h <- order ensures InLedger(c.book, h) && h in c.book.acquired {}
      ReleaseAgainKeeps(c, order[0]);
      var b, d := ReleaseHandle(c, order[0]).0, RetryStartStep(c, order).0;
      forall t <- d.desk.tasks ensures PhaseInv(d, d.desk.tasks[t]) { assert PhaseInv(b, b.desk.tasks[t]); }
    }
  }

  lemma RetryResumeKeeps(c: Client, pass: nat)
    requires Inv(c) && pass in c.retries.passes
    ensures Inv(RetryResumeStep(c, pass).0)
  {
    var rest := c.retries.passes[pass];
    var d := RetryResumeStep(c, pass).0;
    if rest != [] {
      ReleaseAgainKeeps(c, rest[0]);
      var b := ReleaseHandle(c, rest[0]).0;
      forall t <- d.desk.tasks ensures PhaseInv(d, d.desk.tasks[t]) { assert PhaseInv(b, b.desk.tasks[t]); }
    } else {
      forall t <- d.desk.tasks ensures PhaseInv(d, d.desk.tasks[t]) { assert PhaseInv(c, c.desk.tasks[t]); }
    }
  }

  lemma StepKeepsInv(c: Client, e: Event)
    requires Inv(c) && Enabled(c, e)
    ensures Inv(Step(c, e).0)
  {
    match e
    case Open(project) => OpenKeeps(c, project);
    case ProjectOpened(t, ok) =>
      assert PhaseInv(c, c.desk.tasks[t]);
      SetPhaseKeeps(c, t, if ok then Acquiring else Finished);
      assert c.desk.tasks[t].project in c.desk.opening;
    case Acquired(t, None) =>
      SetPhaseKeeps(c, t, Finished);
      assert c.desk.tasks[t].project in c.desk.opening;
    case Acquired(t, Some(h)) =>
      if h.boundProject != c.desk.tasks[t].project || c.disposed { RefusedArrivalKeeps(c, t, h); }
      else { OwnedArrivalKeeps(c, t, h); }
    case Initialized(t, ok) => if ok && !c.disposed { RegisteredKeeps(c, t); } else { InitFailedKeeps(c, t, ok); }
    case StoodDown(t) => StoodDownKeeps(c, t);
    case TaskSettled(t) => TaskSettledKeeps(c, t);
    case ReleaseAnswered(h, refusal) => AnswerKeeps(c, h, refusal);
    case Dispose(order) => DisposeKeeps(c, order);
    case RetryStart(order) => RetryStartKeeps(c, order);
    case RetryResume(pass) => RetryResumeKeeps(c, pass);
  }

  // ----- runs -----

  /** A schedule the environment can produce from `c`. */
  ghost predicate Admitted(c: Client, events: seq<Event>)
    decreases |events|, 0
  {
    events == [] ||
    (Admitted(c, events[..|events| - 1]) && Deliverable(Run(c, events[..|events| - 1]).0, events[|events| - 1]))
  }

  ghost function Run(c: Client, events: seq<Event>): (Client, seq<Effect>)
    requires Admitted(c, events)
    decreases |events|, 1
  {
    if events == [] then (c, [])
    else
      var (before, seen) := Run(c, events[..|events| - 1]);
      var (after, effects) := Step(before, events[|events| - 1]);
      (after, seen + effects)
  }

  /** A schedule in which every handle that arrives brings a new connection id. */
  ghost predicate Possible(c: Client, events: seq<Event>)
    ensures Possible(c, events) ==> Admitted(c, events)
  {
    events == [] ||
    (Possible(c, events[..|events| - 1]) && Enabled(Run(c, events[..|events| - 1]).0, events[|events| - 1]))
  }

  /** In every interleaving the joint invariant holds at every step boundary; in particular the
    * drain attestation is exact and no handle is orphaned. */
  lemma {:induction false} RunKeepsInv(c: Client, events: seq<Event>)
    requires Inv(c) && Possible(c, events)
    ensures Inv(Run(c, events).0)
  {
    if events != [] {
      RunKeepsInv(c, events[..|events| - 1]);
      StepKeepsInv(Run(c, events[..|events| - 1]).0, events[|events| - 1]);
    }
  }

  lemma FreshInv()
    ensures Inv(FRESH)
  {
  }

  /** Two attempts never open the same project at once. */
  lemma OneAttemptPerProject(c: Client, t: nat, u: nat)
    requires Inv(c) && t in c.desk.tasks && u in c.desk.tasks && c.desk.tasks[t].project == c.desk.tasks[u].project
    ensures t == u
    ensures !c.desk.tasks[t].phase.Finished? ==> c.desk.tasks[t].project !in c.channels
  {
    assert PhaseInv(c, c.desk.tasks[t]);
  }

  // ----- what a run shows the outside -----

  /** A live view of the outstanding releases, as `releaseStates()` lists it. */
  function Outstandings(b: Book): map<string, Status> {
    map key <- b.ledger :: b.ledger[key].status
  }

  /** What a listener that applies every announcement to its own copy ends up with. */
  function Mirrored(view: map<string, Status>, effects: seq<Effect>): map<string, Status> {
    if effects == [] then view
    else
      var before := Mirrored(view, effects[..|effects| - 1]);
      match effects[|effects| - 1]
      case Announce(h, Confirmed) => before - {h.connectionId}
      case Announce(h, Outstanding(status)) => before[h.connectionId := status]
      case _ => before
  }

  lemma {:induction false} MirroredConcat(view: map<string, Status>, a: seq<Effect>, b: seq<Effect>)
    ensures Mirrored(view, a + b) == Mirrored(Mirrored(view, a), b)
  {
    if b == [] {
      assert a + b == a;
    } else {
      var rest := b[..|b| - 1];
      assert (a + b)[..|a + b| - 1] == a + rest;
      MirroredConcat(view, a, rest);
    }
  }

  /** The handles with a request in flight and those confirmed, as the effects alone tell. */
  datatype Calls = Calls(inFlight: set<Handle>, confirmed: set<Handle>, settled: bool)

  function CallsOf(c: Client): Calls {
    Calls(c.book.releasing, c.book.released, c.drained)
  }

  /** Reads a history of effects and rejects it at the first breach of the release discipline: a
    * request while one is in flight or after confirmation, an answer nobody asked for, an
    * attestation while a request is in flight, or anything at all after the attestation. */
  function Audit(calls: Calls, effects: seq<Effect>): Option<Calls> {
    if effects == [] then Some(calls)
    else
      match Audit(calls, effects[..|effects| - 1])
      case None => None
      case Some(now) => AuditOne(now, effects[|effects| - 1])
  }

  function AuditOne(now: Calls, e: Effect): Option<Calls> {
    if now.settled then None
    else
      match e
      case Settle => if now.inFlight == {} then Some(now.(settled := true)) else None
      case Request(h) =>
        if h in now.inFlight + now.confirmed then None else Some(now.(inFlight := now.inFlight + {h}))
      case Announce(h, Outstanding(InFlight)) => if h in now.inFlight + now.confirmed then None else Some(now)
      case Announce(h, Outstanding(Failed(_))) =>
        if h in now.inFlight then Some(now.(inFlight := now.inFlight - {h})) else None
      case Announce(h, Confirmed) =>
        if h !in now.inFlight then None
        else Some(now.(inFlight := now.inFlight - {h}, confirmed := now.confirmed + {h}))
  }

  lemma {:induction false} AuditConcat(calls: Calls, a: seq<Effect>, b: seq<Effect>)
    ensures Audit(calls, a + b) == match Audit(calls, a) case None => None case Some(mid) => Audit(mid, b)
  {
    if b == [] {
      assert a + b == a;
    } else {
      var rest := b[..|b| - 1];
      assert (a + b)[..|a + b| - 1] == a + rest;
      AuditConcat(calls, a, rest);
    }
  }

  /** The effects tell the whole story of the step: they pass the audit, ending at the new state's
    * calls, and a mirror of the old ledger becomes a mirror of the new one. */
  ghost predicate Faithful(c: Client, d: Client, effects: seq<Effect>) {
    && Audit(CallsOf(c), effects) == Some(CallsOf(d))
    && Mirrored(Outstandings(c.book), effects) == Outstandings(d.book)
  }

  lemma FaithfulConcat(c: Client, d: Client, e: Client, a: seq<Effect>, b: seq<Effect>)
    requires Faithful(c, d, a) && Faithful(d, e, b)
    ensures Faithful(c, e, a + b)
  {
    AuditConcat(CallsOf(c), a, b);
    MirroredConcat(Outstandings(c.book), a, b);
  }

  lemma OneEffect(c: Client, d: Client, e: Effect)
    requires AuditOne(CallsOf(c), e) == Some(CallsOf(d))
    requires Outstandings(d.book) == match e
             case Announce(h, Confirmed) => Outstandings(c.book) - {h.connectionId}
             case Announce(h, Outstanding(status)) => Outstandings(c.book)[h.connectionId := status]
             case _ => Outstandings(c.book)
    ensures Faithful(c, d, [e])
  {
    assert [e][..|[e]| - 1] == [];
    assert Audit(CallsOf(c), []) == Some(CallsOf(c)) && Mirrored(Outstandings(c.book), []) == Outstandings(c.book);
  }

  lemma DrainFaithful(c: Client)
    requires c.book.ledger == map[] ==> c.book.releasing == {}
    ensures Faithful(c, Drain(c).0, Drain(c).1)
  {
    if Drain(c).0 != c { OneEffect(c, Drain(c).0, Settle); }
  }

  lemma ReleaseHandleFaithful(c: Client, h: Handle)
    requires BookInv(c.book) && h in c.book.acquired && !c.drained
    ensures Faithful(c, ReleaseHandle(c, h).0, ReleaseHandle(c, h).1)
    ensures !ReleaseHandle(c, h).0.drained
  {
    if h !in c.book.released && h !in c.book.releasing {
      var mid := c.(book := Booked(c.book, h, Outstanding(InFlight)));
      assert h.connectionId in mid.book.ledger;
      OneEffect(c, mid, Announce(h, Outstanding(InFlight)));
      var d := ReleaseHandle(c, h).0;
      OneEffect(mid, d, Request(h));
      FaithfulConcat(c, mid, d, [Announce(h, Outstanding(InFlight))], [Request(h)]);
      assert [Announce(h, Outstanding(InFlight))] + [] == [Announce(h, Outstanding(InFlight))];
    }
  }

  lemma {:induction false} ReleaseAllFaithful(c: Client, order: seq<Handle>)
    requires BookInv(c.book) && !c.drained && forall h <- order :: h in c.book.acquired
    ensures Faithful(c, ReleaseAll(c, order).0, ReleaseAll(c, order).1)
    ensures !ReleaseAll(c, order).0.drained
  {
    if order != [] {
      var rest, h := order[..|order| - 1], order[|order| - 1];
      ReleaseAllFaithful(c, rest);
      ReleaseAllMoves(c, rest);
      var mid := ReleaseAll(c, rest).0;
      ReleaseHandleFaithful(mid, h);
      FaithfulConcat(c, mid, ReleaseAll(c, order).0, ReleaseAll(c, rest).1, ReleaseHandle(mid, h).1);
    }
  }

  /** With the answer booked, an empty ledger means that nothing is in flight. */
  lemma AnsweredBook(b: Book, h: Handle, news: News)
    requires BookInv(b) && h in b.releasing && (news.Confirmed? || news.status.Failed?)
    ensures InLedger(b, h) && h.connectionId in b.ledger
    ensures Booked(b, h, news).ledger == map[] ==> b.releasing - {h} == {}
  {
    var ledger := Booked(b, h, news).ledger;
    assert InLedger(b, h);
    if ledger == map[] {
      forall g <- b.releasing ensures g == h {
        assert InLedger(b, g) && g.connectionId in b.ledger;
        assert g.connectionId !in ledger;
      }
    }
  }

  lemma AnswerFaithful(c: Client, h: Handle, refusal: Option<string>)
    requires Inv(c) && h in c.book.releasing
    ensures Faithful(c, Answer(c, h, refusal).0, Answer(c, h, refusal).1)
  {
    var b := c.book;
    var news := if refusal.None? then Confirmed else Outstanding(Failed(refusal.value));
    var released := if refusal.None? then b.released + {h} else b.released;
    var mid := c.(book := Booked(b.(released := released), h, news).(releasing := b.releasing - {h}));
    AnsweredBook(b, h, news);
    OneEffect(c, mid, Announce(h, news));
    assert Answer(c, h, refusal) == (Drain(mid).0, [Announce(h, news)] + Drain(mid).1);
    DrainFaithful(mid);
    FaithfulConcat(c, mid, Drain(mid).0, [Announce(h, news)], Drain(mid).1);
  }

  lemma EmptyEnumeration(order: seq<Handle>, handles: set<Handle>)
    requires Enumerates(order, handles)
    ensures handles == {} ==> order == []
  {
    if order != [] { assert order[0] in handles; }
  }

  /** Once the attestation is given, no step - not even a retry pass already under way - announces
    * or requests anything again. */
  lemma SettledIsSilent(c: Client, e: Event)
    requires Inv(c) && c.drained && Enabled(c, e)
    ensures Step(c, e).1 == [] && Step(c, e).0.drained
  {
    if e.RetryStart? { EmptyEnumeration(e.order, LedgerHandles(c.book)); }
    assert c.desk.tasks == map[];
    assert c.book.releasing == {} by {
      forall h ensures h !in c.book.releasing { assert !InLedger(c.book, h); }
    }
    if e.RetryResume? && c.retries.passes[e.pass] != [] {
      assert Tracked(c.book, c.retries.passes[e.pass][0]);
    }
  }

  lemma ArrivalFaithful(c: Client, t: nat, h: Handle)
    requires Inv(c) && !c.drained && Enabled(c, Acquired(t, Some(h)))
    ensures Faithful(c, AcquiredStep(c, t, Some(h)).0, AcquiredStep(c, t, Some(h)).1)
  {
    var a := c.(book := c.book.(acquired := c.book.acquired + {h}), unowned := c.unowned + {h} - {h});
    ArrivalIsNew(c, t, h);
    assert forall g :: Tracked(c.book, g) <==> Tracked(a.book, g);
    ReleaseHandleFaithful(a, h);
  }

  lemma TaskSettledFaithful(c: Client, t: nat)
    requires Inv(c) && !c.drained && Enabled(c, TaskSettled(t))
    ensures Faithful(c, TaskSettledStep(c, t).0, TaskSettledStep(c, t).1)
  {
    assert forall g <- c.book.releasing :: InLedger(c.book, g);
    var p := c.desk.tasks[t].project;
    DrainFaithful(c.(desk := c.desk.(opening := c.desk.opening - {p}, tasks := c.desk.tasks - {t})));
  }

  lemma InitializedFaithful(c: Client, t: nat, ok: bool)
    requires Inv(c) && !c.drained && Enabled(c, Initialized(t, ok))
    ensures Faithful(c, InitializedStep(c, t, ok).0, InitializedStep(c, t, ok).1)
  {
    assert PhaseInv(c, c.desk.tasks[t]);
    ReleaseHandleFaithful(c, c.desk.tasks[t].phase.handle);
  }

  lemma RetriesFaithful(c: Client, e: Event)
    requires Inv(c) && !c.drained && Enabled(c, e) && (e.RetryStart? || e.RetryResume?)
    ensures Faithful(c, Step(c, e).0, Step(c, e).1)
  {
    if e.RetryStart? {
      if e.order != [] {
        assert e.order[0] in LedgerHandles(c.book);
        ReleaseHandleFaithful(c, e.order[0]);
      }
    } else if c.retries.passes[e.pass] != [] {
      ReleaseHandleFaithful(c, c.retries.passes[e.pass][0]);
    }
  }

  lemma StepFaithful(c: Client, e: Event)
    requires Inv(c) && Enabled(c, e)
    ensures Faithful(c, Step(c, e).0, Step(c, e).1)
  {
    if c.drained {
      SettledIsSilent(c, e);
      SettledKeepsBook(c, e);
    } else {
      match e
      case Acquired(t, Some(h)) => ArrivalFaithful(c, t, h);
      case Initialized(t, ok) => InitializedFaithful(c, t, ok);
      case TaskSettled(t) => TaskSettledFaithful(c, t);
      case ReleaseAnswered(h, refusal) => AnswerFaithful(c, h, refusal);
      case Dispose(order) => DisposeFaithful(c, order);
      case RetryStart(_) => RetriesFaithful(c, e);
      case RetryResume(_) => RetriesFaithful(c, e);
      case _ =>
    }
  }

  lemma SettledKeepsBook(c: Client, e: Event)
    requires Inv(c) && c.drained && Enabled(c, e)
    ensures Step(c, e).0.book == c.book
  {
    SettledIsSilent(c, e);
    assert c.desk.tasks == map[];
  }

  lemma DisposeFaithful(c: Client, order: seq<Handle>)
    requires Inv(c) && Enabled(c, Dispose(order)) && !c.drained
    ensures Faithful(c, DisposeStep(c, order).0, DisposeStep(c, order).1)
  {
    if !c.disposed {
      forall h <- order ensures h in c.book.acquired {
        if h in c.unowned { assert PhaseInv(c, c.desk.tasks[c.desk.opening[h.boundProject]]); }
      }
      var a := c.(disposed := true);
      ReleaseAllFaithful(a, order);
      ReleaseAllMoves(a, order);
      var b := ReleaseAll(a, order).0;
      var mid := b.(unowned := {}, channels := map[]);
      assert forall g <- mid.book.releasing :: InLedger(mid.book, g);
      DrainFaithful(mid);
      FaithfulConcat(c, mid, Drain(mid).0, ReleaseAll(a, order).1, Drain(mid).1);
    }
  }

  /** Release calls are exclusive and the announcements are lossless, over every run. */
  lemma {:induction false} RunFaithful(c: Client, events: seq<Event>)
    requires Inv(c) && Possible(c, events)
    ensures Faithful(c, Run(c, events).0, Run(c, events).1)
  {
    if events != [] {
      var before := events[..|events| - 1];
      RunFaithful(c, before);
      RunKeepsInv(c, before);
      StepFaithful(Run(c, before).0, events[|events| - 1]);
      FaithfulConcat(c, Run(c, before).0, Run(c, events).0, Run(c, before).1,
                     Step(Run(c, before).0, events[|events| - 1]).1);
    }
  }

  lemma {:induction false} AuditPrefix(calls: Calls, effects: seq<Effect>, n: nat)
    requires Audit(calls, effects).Some? && n <= |effects|
    ensures Audit(calls, effects[..n]).Some?
  {
    assert effects == effects[..n] + effects[n..];
    AuditConcat(calls, effects[..n], effects[n..]);
  }

  ghost predicate FailureOf(e: Effect, h: Handle) {
    e.Announce? && e.handle == h && e.news.Outstanding? && e.news.status.Failed?
  }

  /** Read off an audited history: between two requests for one handle there is a refusal of it. */
  lemma {:induction false} RequestHolds(calls: Calls, effects: seq<Effect>, i: nat, n: nat, h: Handle)
    requires Audit(calls, effects).Some? && i < n <= |effects| && effects[i] == Request(h)
    requires forall k | i < k < n :: !FailureOf(effects[k], h)
    ensures n < |effects| ==> effects[n] != Request(h)
    ensures Audit(calls, effects[..n]).Some?
    ensures var now := Audit(calls, effects[..n]).value; h in now.inFlight || h in now.confirmed
  {
    AuditPrefix(calls, effects, n);
    assert effects[..n][..n - 1] == effects[..n - 1];
    if n > i + 1 { RequestHolds(calls, effects, i, n - 1, h); }
    if n < |effects| {
      AuditPrefix(calls, effects, n + 1);
      assert effects[..n + 1][..n] == effects[..n];
    }
  }

  /** In any run of a new client, a handle is requested again only after a refusal of it. */
  lemma OneRequestInFlight(events: seq<Event>, i: nat, j: nat, h: Handle)
    requires Possible(FRESH, events)
    requires i < j < |Run(FRESH, events).1|
    requires Run(FRESH, events).1[i] == Request(h) && Run(FRESH, events).1[j] == Request(h)
    ensures exists k :: i < k < j && FailureOf(Run(FRESH, events).1[k], h)
  {
    FreshInv();
    RunFaithful(FRESH, events);
    var effects := Run(FRESH, events).1;
    if forall k | i < k < j :: !FailureOf(effects[k], h) {
      RequestHolds(CallsOf(FRESH), effects, i, j, h);
    }
  }

  /** Once a client has settled, every schedule from there shows the outside nothing. */
  lemma {:induction false} AttestationIsFinal(c: Client, events: seq<Event>)
    requires Inv(c) && c.drained && Possible(c, events)
    ensures Run(c, events).1 == [] && Run(c, events).0.drained
  {
    if events != [] {
      AttestationIsFinal(c, events[..|events| - 1]);
      RunKeepsInv(c, events[..|events| - 1]);
      SettledIsSilent(Run(c, events[..|events| - 1]).0, events[|events| - 1]);
    }
  }

  // ----- the hypothesis about connection ids -----

  lemma AcquiredGrows(c: Client, e: Event)
    requires Deliverable(c, e)
    ensures Step(c, e).0.book.acquired ==
            if e.Acquired? && e.got.Some? then c.book.acquired + {e.got.value} else c.book.acquired
  {
    match e
    case Dispose(order) => ReleaseAllAcquires(c.(disposed := true), order);
    case _ =>
  }

  lemma {:induction false} ReleaseAllAcquires(c: Client, order: seq<Handle>)
    ensures ReleaseAll(c, order).0.book.acquired == c.book.acquired
  {
    if order != [] { ReleaseAllAcquires(c, order[..|order| - 1]); }
  }

  /** Every arrival brings a new id exactly when the handles of the whole run carry distinct ones. */
  lemma {:induction false} DistinctIdsExactly(c: Client, events: seq<Event>)
    requires Admitted(c, events) && DistinctIds(c.book.acquired)
    ensures Possible(c, events) <==> DistinctIds(Run(c, events).0.book.acquired)
  {
    if events == [] { return; }
    var init, e := events[..|events| - 1], events[|events| - 1];
    DistinctIdsExactly(c, init);
    AcquiredGrows(Run(c, init).0, e);
  }

  /** The two central claims, on the one hypothesis that the handles of the run carry distinct connection ids: the
    * attestation is exact, and no handle is orphaned. */
  lemma DistinctIdsSuffice(events: seq<Event>)
    requires Admitted(FRESH, events) && DistinctIds(Run(FRESH, events).0.book.acquired)
    ensures DrainExact(Run(FRESH, events).0) && OrphanFree(Run(FRESH, events).0)
  {
    DistinctIdsExactly(FRESH, events);
    FreshInv();
    RunKeepsInv(FRESH, events);
  }

  ghost predicate Reaches(c: Client, d: Client) {
    exists events :: Admitted(c, events) && Run(c, events).0 == d
  }

  lemma Start(c: Client)
    ensures Reaches(c, c)
  {
    assert Admitted(c, []) && Run(c, []).0 == c;
  }

  lemma Next(c: Client, d: Client, e: Event)
    requires Reaches(c, d) && Deliverable(d, e)
    ensures Reaches(c, Step(d, e).0)
  {
    var events :| Admitted(c, events) && Run(c, events).0 == d;
    var more := events + [e];
    assert more[..|more| - 1] == events;
    assert Admitted(c, more) && Run(c, more).0 == Step(d, e).0;
  }

  function Idle(disposed: bool, drained: bool, book: Book, nextTask: nat, retries: Retries): Client {
    Client(disposed, drained, book, Desk(map[], map[], nextTask), map[], {}, retries)
  }

  function HandshakeFailed(book: Book, t: nat, h: Handle, retries: Retries): Client {
    Client(false, false, book, Desk(map[h.boundProject := t], map[t := Task(h.boundProject, InitFailed(h))], t + 1),
           map[], {h}, retries)
  }

  /** An idle client opens the handle's project, and the handshake fails: its release goes out. */
  lemma FailedOpen(book: Book, t: nat, h: Handle, retries: Retries)
    requires h !in book.acquired && h !in book.released && h !in book.releasing
    ensures var b := Book(book.ledger[h.connectionId := Record(h, InFlight)], book.releasing + {h}, book.released,
                          book.acquired + {h});
            forall c | Reaches(c, Idle(false, false, book, t, retries)) :: Reaches(c, HandshakeFailed(b, t, h, retries))
  {
    var p := h.boundProject;
    var c0 := Idle(false, false, book, t, retries);
    var c1 := Step(c0, Open(p)).0;
    var c2 := Step(c1, ProjectOpened(t, true)).0;
    var c3 := Step(c2, Acquired(t, Some(h))).0;
    var c4 := Step(c3, Initialized(t, false)).0;
    forall c | Reaches(c, c0) ensures Reaches(c, c4) {
      Next(c, c0, Open(p));
      Next(c, c1, ProjectOpened(t, true));
      Next(c, c2, Acquired(t, Some(h)));
      Next(c, c3, Initialized(t, false));
    }
  }

  /** The backend answers the stood-down handle, and the attempt is over. */
  lemma Settled(book: Book, t: nat, h: Handle, retries: Retries, refusal: Option<string>)
    requires h in book.releasing
    ensures var b := match refusal
                     case None => Book(book.ledger - {h.connectionId}, book.releasing - {h}, book.released + {h},
                                       book.acquired)
                     case Some(why) => Book(book.ledger[h.connectionId := Record(h, Failed(why))], book.releasing - {h},
                                            book.released, book.acquired);
            forall c | Reaches(c, HandshakeFailed(book, t, h, retries)) ::
              Reaches(c, Idle(false, false, b, t + 1, retries))
  {
    var c0 := HandshakeFailed(book, t, h, retries);
    var c1 := Step(c0, ReleaseAnswered(h, refusal)).0;
    var c2 := Step(c1, StoodDown(t)).0;
    var c3 := Step(c2, TaskSettled(t)).0;
    forall c | Reaches(c, c0) ensures Reaches(c, c3) {
      Next(c, c0, ReleaseAnswered(h, refusal));
      Next(c, c1, StoodDown(t));
      Next(c, c2, TaskSettled(t));
    }
  }

  /** Why handles must carry distinct connection ids. A project is opened, the handshake fails and the stand-down is
    * refused; while a retry of it is out, the project is opened again and the backend hands out the same connection
    * under a new handle. One confirmation of the new handle, and the disposed client attests although the other
    * request is unanswered; when the answer comes, it announces again. */
  lemma SharedConnectionIdSettlesTooEarly(g: Handle, h: Handle)
    requires g != h && g.connectionId == h.connectionId
    ensures exists c :: && Reaches(FRESH, c) && c.drained && g in c.book.releasing
                        && Answer(c, g, Some("refused")).1 != []
  {
    var id, none := g.connectionId, Retries(map[], 0);
    Start(FRESH);
    FailedOpen(Book(map[], {}, {}, {}), 0, g, none);
    var b1 := Book(map[id := Record(g, InFlight)], {g}, {}, {g});
    assert map[][id := Record(g, InFlight)] == b1.ledger && {} + {g} == {g};
    assert Reaches(FRESH, HandshakeFailed(b1, 0, g, none));
    Settled(b1, 0, g, none, Some("refused"));
    var b2 := Book(map[id := Record(g, Failed("refused"))], {}, {}, {g});
    assert b1.ledger[id := Record(g, Failed("refused"))] == b2.ledger && {g} - {g} == {};
    assert Reaches(FRESH, Idle(false, false, b2, 1, none));
    var out := Retries(map[0 := []], 1);
    var b3 := Book(map[id := Record(g, InFlight)], {g}, {}, {g});
    RetryGoesOut(b2, b3, g, out);
    FailedOpen(b3, 1, h, out);
    var b4 := Book(map[id := Record(h, InFlight)], {g, h}, {}, {g, h});
    assert b3.ledger[id := Record(h, InFlight)] == b4.ledger && {g} + {h} == {g, h};
    assert Reaches(FRESH, HandshakeFailed(b4, 1, h, out));
    Settled(b4, 1, h, out, None);
    var b5 := Book(map[], {g}, {h}, {g, h});
    assert b4.ledger - {id} == map[] && {g, h} - {h} == {g} && {} + {h} == {h};
    assert Reaches(FRESH, Idle(false, false, b5, 2, out));
    EmptyClientAttests(b5, 2, out);
  }

  lemma RetryGoesOut(b: Book, after: Book, g: Handle, out: Retries)
    requires b == Book(map[g.connectionId := Record(g, Failed("refused"))], {}, {}, {g})
    requires after == Book(map[g.connectionId := Record(g, InFlight)], {g}, {}, {g}) && out == Retries(map[0 := []], 1)
    requires Reaches(FRESH, Idle(false, false, b, 1, Retries(map[], 0)))
    ensures Reaches(FRESH, Idle(false, false, after, 1, out))
  {
    var c := Idle(false, false, b, 1, Retries(map[], 0));
    assert LedgerHandles(b) == {g} by { assert b.ledger[g.connectionId].handle == g; }
    assert [g][1..] == [];
    Next(FRESH, c, RetryStart([g]));
    assert Step(c, RetryStart([g])).0 == Idle(false, false, after, 1, out);
  }

  lemma EmptyClientAttests(b: Book, t: nat, retries: Retries)
    requires b.ledger == map[] && Reaches(FRESH, Idle(false, false, b, t, retries))
    ensures Reaches(FRESH, Idle(true, true, b, t, retries))
  {
    var c := Idle(false, false, b, t, retries);
    Next(FRESH, c, Dispose([]));
    assert Step(c, Dispose([])).0 == Idle(true, true, b, t, retries);
  }
}
