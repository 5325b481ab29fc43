/** The managed channel registry as a state machine over its lock sections. A thread runs `acquire`,
  * `release`, `stop_all` on one connection, or an exit callback, and any other thread's sections may
  * fall between two of its own. Each connection's transport is an `EntryProtocol` machine. */
module RegistryProtocol {
  import opened Wrappers
  import E = EntryProtocol

  /** A connection object. `receipt`: its transport offers `request_release`. */
  datatype Channel = Channel(id: nat, pair: (string, string), receipt: bool)

  /** A terminal transition the registry asks of the run ledger. */
  datatype Ending =
    | EndReleased(reason: string)
    | EndExited       // the exit callback's claim
    | EndRetroactive  // `acquire` found an exit code after publishing
    | EndSuperseded

  datatype Thread =
    | Launching(ch: Channel)
    | Opening(ch: Channel)
    | Publishing(ch: Channel)
    | Superseded(ch: Channel)
    | CheckingExit(ch: Channel)
    | EndingExit(ch: Channel)
    | Asking(ch: Channel, reason: string, stopping: bool)
    | Awaiting(ch: Channel, reason: string, stopping: bool)
    | Forcing(ch: Channel, reason: string)
    | Claiming(ch: Channel, reason: string, forced: bool)
    | Settling(ch: Channel, reason: string, forced: bool)
    | Exiting(ch: Channel)
    | Failing(ch: Channel)

  /** What a finished `release` call told its caller. */
  datatype Answer = Answer(ch: Channel, released: bool)

  /** The two maps, with the history of what entered and who took it out. */
  datatype Roster = Roster(
    byPair: map<(string, string), Channel>,
    byId: map<nat, Channel>,
    published: set<Channel>,
    claimant: map<Channel, nat>)

  /** The run ledger: what it was asked, in order, and the ending its row records. `settled`: the connections whose
    * claim has reached it. */
  datatype Runs = Runs(attempts: map<Channel, seq<Ending>>, recorded: map<Channel, Ending>, settled: set<Channel>)

  /** What the exit callback left: `coded` are the connections whose `exit_code is not None`, `ran` is the history of
    * how often it ran. */
  datatype Exits = Exits(coded: set<Channel>, ran: map<Channel, nat>)

  datatype Registry = Registry(
    roster: Roster,
    runs: Runs,
    threads: map<nat, Thread>,
    owner: map<Channel, nat>,        // history: the acquiring thread
    entries: map<Channel, E.Entry>,  // every connection object and its transport
    exits: Exits,
    answers: set<Answer>)            // history of `release` answers

  const EMPTY: Registry :=
    Registry(Roster(map[], map[], {}, map[]), Runs(map[], map[], {}), map[], map[], map[], Exits({}, map[]), {})

  function Attempts(runs: Runs, ch: Channel): seq<Ending> {
    if ch in runs.attempts then runs.attempts[ch] else []
  }

  /** The ledger's row: one that has ended already is returned as it is. */
  function EndRow(recorded: map<Channel, Ending>, ch: Channel, ending: Ending): map<Channel, Ending> {
    if ch in recorded then recorded else recorded[ch := ending]
  }

  /** One call to end the run. */
  function Write(runs: Runs, ch: Channel, ending: Ending): Runs {
    runs.(attempts := runs.attempts[ch := Attempts(runs, ch) + [ending]], recorded := EndRow(runs.recorded, ch, ending))
  }

  /** The call of a claim. */
  function SettleRun(runs: Runs, ch: Channel, ending: Ending): Runs {
    Write(runs, ch, ending).(settled := runs.settled + {ch})
  }

  function Callbacks(r: Registry, ch: Channel): nat {
    if ch in r.exits.ran then r.exits.ran[ch] else 0
  }

  predicate Registered(roster: Roster, ch: Channel) {
    ch.id in roster.byId && roster.byId[ch.id] == ch
  }

  function Register(roster: Roster, ch: Channel): Roster {
    Roster(roster.byPair[ch.pair := ch], roster.byId[ch.id := ch], roster.published + {ch}, roster.claimant)
  }

  /** The section shared by every claim: pop both maps. */
  function Claim(roster: Roster, t: nat, ch: Channel): Roster {
    Roster(roster.byPair - {ch.pair}, roster.byId - {ch.id}, roster.published, roster.claimant[ch := t])
  }

  function Goto(r: Registry, t: nat, thread: Thread): Registry {
    r.(threads := r.threads[t := thread])
  }

  function Finish(r: Registry, t: nat): Registry {
    r.(threads := r.threads - {t})
  }

  datatype Event =
    | Acquire(thread: nat, ch: Channel)           // lookup; `ch` is the object it would create
    | Launched(thread: nat, ok: bool)
    | RunOpened(thread: nat, ok: bool)
    | Publish(thread: nat)
    | EndLoser(thread: nat)
    | CheckExit(thread: nat)
    | EndRetro(thread: nat)
    | Release(thread: nat, id: nat, reason: string, stopping: bool)
    | Ask(thread: nat, sent: bool)
    | AskDone(thread: nat)
    | Forced(thread: nat)
    | TakeClaim(thread: nat)
    | Settle(thread: nat)
    | Exit(thread: nat, ch: Channel, coded: bool) // the exit callback up to its lock; `coded`: with an exit code
    | ExitClaim(thread: nat)
    | ExitSettle(thread: nat)
    | OnEntry(ch: Channel, after: E.Entry)        // the transport's own threads

  predicate OwnEvent(v: E.Event) {
    !v.BeginRelease? && !v.EndRelease?
  }

  /** One step of a transport that no call of `release` takes. */
  ghost predicate MovesItself(e: E.Entry, after: E.Entry) {
    exists event :: OwnEvent(event) && E.Enabled(e, event) && after == E.Step(e, event).0
  }

  ghost predicate Enabled(r: Registry, v: Event) {
    match v
    case Acquire(t, ch) => t !in r.threads && ch !in r.entries && forall c <- r.entries :: c.id != ch.id
    case Launched(t, _) => t in r.threads && r.threads[t].Launching?
    case RunOpened(t, _) => t in r.threads && r.threads[t].Opening?
    case Publish(t) => t in r.threads && r.threads[t].Publishing?
    case EndLoser(t) => t in r.threads && r.threads[t].Superseded?
    case CheckExit(t) => t in r.threads && r.threads[t].CheckingExit?
    case EndRetro(t) => t in r.threads && r.threads[t].EndingExit?
    case Release(t, _, _, _) => t !in r.threads
    case Ask(t, sent) =>
      && t in r.threads && r.threads[t].Asking? && r.threads[t].ch in r.entries
      && (r.threads[t].ch.receipt ==> E.Enabled(r.entries[r.threads[t].ch], E.BeginRelease(t, sent)))
    case AskDone(t) =>
      && t in r.threads && r.threads[t].Awaiting? && r.threads[t].ch in r.entries
      && E.Enabled(r.entries[r.threads[t].ch], E.EndRelease(t))
    case Forced(t) => t in r.threads && r.threads[t].Forcing?
    case TakeClaim(t) => t in r.threads && r.threads[t].Claiming?
    case Settle(t) => t in r.threads && r.threads[t].Settling?
    case Exit(t, ch, _) => t !in r.threads && ch in r.entries && Callbacks(r, ch) < r.entries[ch].exits
    case ExitClaim(t) => t in r.threads && r.threads[t].Exiting?
    case ExitSettle(t) => t in r.threads && r.threads[t].Failing?
    case OnEntry(ch, after) => ch in r.entries && MovesItself(r.entries[ch], after)
  }

  function AcquireStep(r: Registry, t: nat, ch: Channel): Registry {
    if ch.pair in r.roster.byPair then r
    else Goto(r.(entries := r.entries[ch := E.STARTED], owner := r.owner[ch := t]), t, Launching(ch))
  }

  function PublishStep(r: Registry, t: nat, ch: Channel): Registry {
    if ch.pair in r.roster.byPair then Goto(r, t, Superseded(ch))
    else Goto(r.(roster := Register(r.roster, ch)), t, CheckingExit(ch))
  }

  function ReleaseStep(r: Registry, t: nat, id: nat, reason: string, stopping: bool): Registry {
    if id !in r.roster.byId then r else Goto(r, t, Asking(r.roster.byId[id], reason, stopping))
  }

  /** What an outcome of `request_release` makes of the call. */
  function OutcomeStep(r: Registry, t: nat, call: Thread, outcome: Option<E.Outcome>): Registry
    requires call.Asking? || call.Awaiting?
  {
    match outcome
    case None => Goto(r, t, Awaiting(call.ch, call.reason, call.stopping))
    case Some(o) =>
      if o.confirmed then Goto(r, t, Claiming(call.ch, call.reason, false))
      else
        var told := r.(answers := r.answers + {Answer(call.ch, false)});
        if call.stopping then Goto(told, t, Forcing(call.ch, call.reason)) else Finish(told, t)
  }

  ghost function AskStep(r: Registry, t: nat, sent: bool): Registry
    requires Enabled(r, Ask(t, sent))
  {
    var call := r.threads[t];
    if !call.ch.receipt then Goto(r, t, Claiming(call.ch, call.reason, false))
    else
      var (e, outcome) := E.BeginReleaseStep(r.entries[call.ch], t, sent);
      OutcomeStep(r.(entries := r.entries[call.ch := e]), t, call, outcome)
  }

  ghost function AskDoneStep(r: Registry, t: nat): Registry
    requires Enabled(r, AskDone(t))
  {
    var call := r.threads[t];
    var (e, outcome) := E.EndReleaseStep(r.entries[call.ch]);
    OutcomeStep(r.(entries := r.entries[call.ch := e]), t, call, outcome)
  }

  /** `release` answers `released: True` whether or not its own claim won. */
  function TakeClaimStep(r: Registry, t: nat): Registry
    requires t in r.threads && r.threads[t].Claiming?
  {
    var Claiming(ch, reason, forced) := r.threads[t];
    if Registered(r.roster, ch) then Goto(r.(roster := Claim(r.roster, t, ch)), t, Settling(ch, reason, forced))
    else Finish(if forced then r else r.(answers := r.answers + {Answer(ch, true)}), t)
  }

  function SettleStep(r: Registry, t: nat): Registry
    requires t in r.threads && r.threads[t].Settling?
  {
    var Settling(ch, reason, forced) := r.threads[t];
    var done := r.(runs := SettleRun(r.runs, ch, EndReleased(reason)));
    Finish(if forced then done else done.(answers := r.answers + {Answer(ch, true)}), t)
  }

  function ExitStep(r: Registry, t: nat, ch: Channel, coded: bool): Registry {
    Goto(r.(exits := Exits(if coded then r.exits.coded + {ch} else r.exits.coded - {ch},
                           r.exits.ran[ch := Callbacks(r, ch) + 1])), t, Exiting(ch))
  }

  function ExitClaimStep(r: Registry, t: nat): Registry
    requires t in r.threads && r.threads[t].Exiting?
  {
    var ch := r.threads[t].ch;
    if Registered(r.roster, ch) then Goto(r.(roster := Claim(r.roster, t, ch)), t, Failing(ch)) else Finish(r, t)
  }

  ghost function Step(r: Registry, v: Event): Registry
    requires Enabled(r, v)
  {
    match v
    case Acquire(t, ch) => AcquireStep(r, t, ch)
    case Launched(t, ok) => if ok then Goto(r, t, Opening(r.threads[t].ch)) else Finish(r, t)
    case RunOpened(t, ok) => if ok then Goto(r, t, Publishing(r.threads[t].ch)) else Finish(r, t)
    case Publish(t) => PublishStep(r, t, r.threads[t].ch)
    case EndLoser(t) => Finish(r.(runs := Write(r.runs, r.threads[t].ch, EndSuperseded)), t)
    case CheckExit(t) =>
      if r.threads[t].ch in r.exits.coded then Goto(r, t, EndingExit(r.threads[t].ch)) else Finish(r, t)
    case EndRetro(t) => Finish(r.(runs := Write(r.runs, r.threads[t].ch, EndRetroactive)), t)
    case Release(t, id, reason, stopping) => ReleaseStep(r, t, id, reason, stopping)
    case Ask(t, sent) => AskStep(r, t, sent)
    case AskDone(t) => AskDoneStep(r, t)
    case Forced(t) => Goto(r, t, Claiming(r.threads[t].ch, r.threads[t].reason, true))
    case TakeClaim(t) => TakeClaimStep(r, t)
    case Settle(t) => SettleStep(r, t)
    case Exit(t, ch, coded) => ExitStep(r, t, ch, coded)
    case ExitClaim(t) => ExitClaimStep(r, t)
    case ExitSettle(t) => Finish(r.(runs := SettleRun(r.runs, r.threads[t].ch, EndExited)), t)
    case OnEntry(ch, after) => r.(entries := r.entries[ch := after])
  }

  // Steps are looked at by what they may do: ask the transport, take a claim, write an ending, let a connection in, or
  // none of these.

  predicate Asks(v: Event) {
    v.Ask? || v.AskDone?
  }

  predicate Takes(v: Event) {
    v.TakeClaim? || v.ExitClaim?
  }

  predicate Writes(v: Event) {
    v.EndLoser? || v.EndRetro? || v.Settle? || v.ExitSettle?
  }

  predicate LetsIn(v: Event) {
    v.Acquire? || v.Publish?
  }

  predicate Walks(v: Event) {
    v.Launched? || v.RunOpened? || v.CheckExit? || v.Release? || v.Forced? || v.Exit?
  }

  // ----- the invariant -----

  /** Both maps describe the same connections, and a connection is in them exactly between its
    * publication and the one claim that takes it out. */
  ghost predicate RosterInv(roster: Roster) {
    && (forall id <- roster.byId ::
          var ch := roster.byId[id]; ch.id == id && ch.pair in roster.byPair && roster.byPair[ch.pair] == ch)
    && (forall p <- roster.byPair :: roster.byPair[p].pair == p && Registered(roster, roster.byPair[p]))
    && (forall ch :: Registered(roster, ch) <==> ch in roster.published && ch !in roster.claimant)
    && roster.claimant.Keys <= roster.published
  }

  function Claims(endings: seq<Ending>): nat {
    if endings == [] then 0
    else
      var last := endings[|endings| - 1];
      Claims(endings[..|endings| - 1]) + if last.EndReleased? || last.EndExited? then 1 else 0
  }

  function Retros(endings: seq<Ending>): nat {
    if endings == [] then 0
    else Retros(endings[..|endings| - 1]) + if endings[|endings| - 1].EndRetroactive? then 1 else 0
  }

  /** What the ledger may hold for one connection. */
  ghost predicate AttemptsInv(roster: Roster, runs: Runs, ch: Channel) {
    var endings := Attempts(runs, ch);
    if ch in roster.published then
      && Claims(endings) == (if ch in runs.settled then 1 else 0)
      && Retros(endings) <= 1
      && |endings| == Claims(endings) + Retros(endings)
    else endings == [] || endings == [EndSuperseded]
  }

  ghost predicate RunsInv(roster: Roster, runs: Runs) {
    && (forall ch <- runs.settled :: ch in roster.claimant)
    && (forall ch :: AttemptsInv(roster, runs, ch))
  }

  ghost predicate Backed(r: Registry, ch: Channel) {
    ch in r.entries && (ch.receipt ==> r.entries[ch].confirmed)
  }

  ghost predicate ThreadInv(r: Registry, t: nat, thread: Thread) {
    var ch := thread.ch;
    && ch in r.entries
    && match thread
       case Launching(_) =>
         ch in r.owner && r.owner[ch] == t && ch !in r.roster.published && Attempts(r.runs, ch) == []
       case Opening(_) =>
         ch in r.owner && r.owner[ch] == t && ch !in r.roster.published && Attempts(r.runs, ch) == []
       case Publishing(_) =>
         ch in r.owner && r.owner[ch] == t && ch !in r.roster.published && Attempts(r.runs, ch) == []
       case Superseded(_) =>
         ch in r.owner && r.owner[ch] == t && ch !in r.roster.published && Attempts(r.runs, ch) == []
       case CheckingExit(_) =>
         ch in r.owner && r.owner[ch] == t && ch in r.roster.published && Retros(Attempts(r.runs, ch)) == 0
       case EndingExit(_) =>
         ch in r.owner && r.owner[ch] == t && ch in r.roster.published && Retros(Attempts(r.runs, ch)) == 0
       case Claiming(_, _, forced) => forced || Backed(r, ch)
       case Settling(_, _, forced) =>
         (forced || Backed(r, ch)) && ch in r.roster.claimant && r.roster.claimant[ch] == t && ch !in r.runs.settled
       case Failing(_) => ch in r.roster.claimant && r.roster.claimant[ch] == t && ch !in r.runs.settled
       case _ => true
  }

  ghost predicate ThreadsInv(r: Registry) {
    forall t <- r.threads :: ThreadInv(r, t, r.threads[t])
  }

  ghost predicate EntriesInv(r: Registry) {
    && (forall ch <- r.entries :: E.EntryInv(r.entries[ch]))
    && (forall c, d | c in r.entries && d in r.entries && c.id == d.id :: c == d)
    && (forall ch <- r.roster.published :: ch in r.entries)
    && (forall ch <- r.runs.attempts :: ch in r.entries)
  }

  /** A `released: True` is never told without the entry's confirmation. */
  ghost predicate AnswersInv(r: Registry) {
    forall a <- r.answers :: a.released ==> Backed(r, a.ch)
  }

  ghost predicate Inv(r: Registry) {
    RosterInv(r.roster) && RunsInv(r.roster, r.runs) && ThreadsInv(r) && EntriesInv(r) && AnswersInv(r)
  }

  // ----- preservation -----

  lemma RegisterKeeps(roster: Roster, ch: Channel)
    requires RosterInv(roster) && ch.pair !in roster.byPair
    requires forall c <- roster.published :: c.id != ch.id
    ensures RosterInv(Register(roster, ch))
  {
    var after := Register(roster, ch);
    assert ch.id !in roster.byId by {
      if ch.id in roster.byId { assert Registered(roster, roster.byId[ch.id]); }
    }
    assert forall c :: Registered(after, c) <==> c == ch || Registered(roster, c);
  }

  lemma ClaimKeeps(roster: Roster, t: nat, ch: Channel)
    requires RosterInv(roster) && Registered(roster, ch)
    ensures RosterInv(Claim(roster, t, ch)) && !Registered(Claim(roster, t, ch), ch)
  {
    var after := Claim(roster, t, ch);
    assert roster.byPair[ch.pair] == ch;
    forall c ensures Registered(after, c) <==> c != ch && Registered(roster, c) {
      if Registered(roster, c) && c.id == ch.id { assert c == ch; }
    }
    forall p <- after.byPair ensures after.byPair[p].pair == p && Registered(after, after.byPair[p]) {
      assert Registered(roster, roster.byPair[p]);
    }
    forall id <- after.byId ensures after.byId[id].pair in after.byPair {
      assert Registered(roster, roster.byId[id]);
      assert roster.byPair[roster.byId[id].pair] == roster.byId[id];
    }
  }

  lemma WriteCounts(runs: Runs, ch: Channel, ending: Ending)
    ensures var before, after := Attempts(runs, ch), Attempts(Write(runs, ch, ending), ch);
            && |after| == |before| + 1
            && Claims(after) == Claims(before) + (if ending.EndReleased? || ending.EndExited? then 1 else 0)
            && Retros(after) == Retros(before) + (if ending.EndRetroactive? then 1 else 0)
    ensures forall c | c != ch :: Attempts(Write(runs, ch, ending), c) == Attempts(runs, c)
  {
    var before, after := Attempts(runs, ch), Attempts(Write(runs, ch, ending), ch);
    assert after[..|after| - 1] == before;
  }

  /** A thread may go where its new position's claim already holds. */
  lemma GotoKeeps(r: Registry, t: nat, thread: Thread)
    requires Inv(r) && ThreadInv(r, t, thread)
    ensures Inv(Goto(r, t, thread))
  {
    var d := Goto(r, t, thread);
    forall u <- d.threads ensures ThreadInv(d, u, d.threads[u]) {
      if u != t { assert ThreadInv(r, u, r.threads[u]); }
    }
  }

  lemma FinishKeeps(r: Registry, t: nat)
    requires Inv(r)
    ensures Inv(Finish(r, t))
  {
    var d := Finish(r, t);
    forall u <- d.threads ensures ThreadInv(d, u, d.threads[u]) { assert ThreadInv(r, u, r.threads[u]); }
  }

  /** Confirmations are not taken back. */
  ghost predicate BackingGrows(r: Registry, d: Registry) {
    forall c :: Backed(r, c) ==> Backed(d, c)
  }

  lemma ThreadsAfterEntryMove(r: Registry, d: Registry)
    requires ThreadsInv(r) && d == r.(entries := d.entries) && r.entries.Keys <= d.entries.Keys && BackingGrows(r, d)
    ensures ThreadsInv(d)
  {
    forall u <- d.threads ensures ThreadInv(d, u, d.threads[u]) { assert ThreadInv(r, u, r.threads[u]); }
  }

  lemma EntryMoveKeeps(r: Registry, ch: Channel, e: E.Entry)
    requires Inv(r) && ch in r.entries && E.EntryInv(e) && (r.entries[ch].confirmed ==> e.confirmed)
    ensures Inv(r.(entries := r.entries[ch := e]))
  {
    var d := r.(entries := r.entries[ch := e]);
    assert BackingGrows(r, d);
    ThreadsAfterEntryMove(r, d);
  }

  lemma AnswerKeeps(r: Registry, a: Answer)
    requires Inv(r) && (a.released ==> Backed(r, a.ch))
    ensures Inv(r.(answers := r.answers + {a}))
  {
    var d := r.(answers := r.answers + {a});
    forall u <- d.threads ensures ThreadInv(d, u, d.threads[u]) { assert ThreadInv(r, u, r.threads[u]); }
  }

  lemma ThreadsAfterAcquire(r: Registry, t: nat, ch: Channel)
    requires ThreadsInv(r) && t !in r.threads && ch !in r.entries
    requires ch !in r.roster.published && Attempts(r.runs, ch) == []
    ensures ThreadsInv(AcquireStep(r, t, ch))
  {
    var d := AcquireStep(r, t, ch);
    forall u <- d.threads ensures ThreadInv(d, u, d.threads[u]) {
      if u in r.threads { assert ThreadInv(r, u, r.threads[u]); }
    }
  }

  lemma EntriesAfterAcquire(r: Registry, t: nat, ch: Channel)
    requires EntriesInv(r) && AnswersInv(r) && Enabled(r, Acquire(t, ch))
    ensures EntriesInv(AcquireStep(r, t, ch)) && AnswersInv(AcquireStep(r, t, ch))
  {
    E.StartedInv();
    assert forall c :: Backed(r, c) ==> Backed(AcquireStep(r, t, ch), c);
  }

  lemma AcquireKeeps(r: Registry, t: nat, ch: Channel)
    requires Inv(r) && Enabled(r, Acquire(t, ch))
    ensures Inv(AcquireStep(r, t, ch))
  {
    ThreadsAfterAcquire(r, t, ch);
    EntriesAfterAcquire(r, t, ch);
  }

  lemma RegisterKeepsRuns(roster: Roster, runs: Runs, ch: Channel)
    requires RunsInv(roster, runs) && roster.claimant.Keys <= roster.published
    requires ch !in roster.published && Attempts(runs, ch) == []
    ensures RunsInv(Register(roster, ch), runs)
  {
    forall c ensures AttemptsInv(Register(roster, ch), runs, c) { assert AttemptsInv(roster, runs, c); }
  }

  lemma ThreadsAfterPublish(r: Registry, t: nat)
    requires ThreadsInv(r) && t in r.threads && r.threads[t].Publishing?
    ensures ThreadsInv(PublishStep(r, t, r.threads[t].ch))
  {
    var d := PublishStep(r, t, r.threads[t].ch);
    assert ThreadInv(r, t, r.threads[t]);
    forall u <- d.threads ensures ThreadInv(d, u, d.threads[u]) {
      if u != t { assert ThreadInv(r, u, r.threads[u]); }
    }
  }

  lemma EntriesAfterPublish(r: Registry, d: Registry, ch: Channel)
    requires EntriesInv(r) && ch in r.entries
    requires d.entries == r.entries && d.runs == r.runs && d.roster.published == r.roster.published + {ch}
    ensures EntriesInv(d)
  {
  }

  lemma RosterAfterPublish(roster: Roster, runs: Runs, ch: Channel)
    requires RosterInv(roster) && RunsInv(roster, runs) && ch.pair !in roster.byPair
    requires ch !in roster.published && Attempts(runs, ch) == [] && forall c <- roster.published :: c.id != ch.id
    ensures RosterInv(Register(roster, ch)) && RunsInv(Register(roster, ch), runs)
  {
    RegisterKeeps(roster, ch);
    RegisterKeepsRuns(roster, runs, ch);
  }

  lemma WinnerKeeps(r: Registry, d: Registry, t: nat, ch: Channel)
    requires t in r.threads && r.threads[t] == Publishing(ch) && ch.pair !in r.roster.byPair && Inv(r)
    requires d == Goto(r.(roster := Register(r.roster, ch)), t, CheckingExit(ch)) && ThreadsInv(d)
    ensures Inv(d)
  {
    PublisherIsNew(r, t);
    RosterAfterPublish(r.roster, r.runs, ch);
    EntriesAfterPublish(r, d, ch);
    SameEntriesSameAnswers(r, d);
  }

  lemma PublishKeeps(r: Registry, t: nat)
    requires t in r.threads && r.threads[t].Publishing? && Inv(r)
    ensures Inv(PublishStep(r, t, r.threads[t].ch))
  {
    var ch := r.threads[t].ch;
    ThreadsAfterPublish(r, t);
    if ch.pair !in r.roster.byPair { WinnerKeeps(r, PublishStep(r, t, ch), t, ch); }
  }

  lemma PublisherIsNew(r: Registry, t: nat)
    requires t in r.threads && r.threads[t].Publishing? && ThreadsInv(r) && EntriesInv(r)
    ensures var ch := r.threads[t].ch;
            && ch in r.entries && ch !in r.roster.published && Attempts(r.runs, ch) == []
            && forall c <- r.roster.published :: c.id != ch.id
  {
    assert ThreadInv(r, t, r.threads[t]);
  }

  lemma SameEntriesSameAnswers(r: Registry, d: Registry)
    requires AnswersInv(r) && d.answers == r.answers && d.entries == r.entries
    ensures AnswersInv(d)
  {
    assert forall c :: Backed(r, c) ==> Backed(d, c);
  }

  lemma ThreadsAfterClaim(r: Registry, t: nat, ch: Channel, thread: Thread)
    requires ThreadsInv(r) && t in r.threads && r.threads[t].ch == ch && thread.ch == ch
    requires ch !in r.roster.claimant && ch !in r.runs.settled
    requires thread.Failing? || (thread.Settling? && (thread.forced || Backed(r, ch)))
    ensures ThreadsInv(Goto(r.(roster := Claim(r.roster, t, ch)), t, thread))
  {
    var d := Goto(r.(roster := Claim(r.roster, t, ch)), t, thread);
    assert ThreadInv(r, t, r.threads[t]);
    forall u <- d.threads ensures ThreadInv(d, u, d.threads[u]) {
      if u != t { assert ThreadInv(r, u, r.threads[u]); }
    }
  }

  /** Taking a claim: the connection leaves both maps and the thread alone may write its ending. */
  lemma ClaimStepKeeps(r: Registry, t: nat, ch: Channel, thread: Thread)
    requires Inv(r) && t in r.threads && r.threads[t].ch == ch && Registered(r.roster, ch) && thread.ch == ch
    requires thread.Failing? || (thread.Settling? && (thread.forced || Backed(r, ch)))
    ensures Inv(Goto(r.(roster := Claim(r.roster, t, ch)), t, thread))
  {
    ClaimKeeps(r.roster, t, ch);
    assert ch !in r.roster.claimant && ch !in r.runs.settled;
    ThreadsAfterClaim(r, t, ch, thread);
    var d := Goto(r.(roster := Claim(r.roster, t, ch)), t, thread);
    SameEntriesSameAnswers(r, d);
    forall c ensures AttemptsInv(d.roster, d.runs, c) { assert AttemptsInv(r.roster, r.runs, c); }
  }

  lemma SettleKeepsRuns(roster: Roster, runs: Runs, ch: Channel, ending: Ending)
    requires RunsInv(roster, runs) && ch in roster.claimant && ch in roster.published && ch !in runs.settled
    requires ending.EndReleased? || ending.EndExited?
    ensures RunsInv(roster, SettleRun(runs, ch, ending))
    ensures forall c :: Retros(Attempts(SettleRun(runs, ch, ending), c)) == Retros(Attempts(runs, c))
    ensures forall c | c != ch :: Attempts(SettleRun(runs, ch, ending), c) == Attempts(runs, c)
  {
    WriteCounts(runs, ch, ending);
    var after := SettleRun(runs, ch, ending);
    assert forall c :: Attempts(after, c) == Attempts(Write(runs, ch, ending), c);
    forall c ensures AttemptsInv(roster, after, c) { assert AttemptsInv(roster, runs, c); }
  }

  lemma ThreadsAfterSettle(r: Registry, t: nat, ending: Ending)
    requires ThreadsInv(r) && RunsInv(r.roster, r.runs) && r.roster.claimant.Keys <= r.roster.published
    requires t in r.threads && (r.threads[t].Settling? || r.threads[t].Failing?)
    requires ending.EndReleased? || ending.EndExited?
    ensures ThreadsInv(Finish(r.(runs := SettleRun(r.runs, r.threads[t].ch, ending)), t))
  {
    var ch := r.threads[t].ch;
    assert ThreadInv(r, t, r.threads[t]);
    SettleKeepsRuns(r.roster, r.runs, ch, ending);
    var d := Finish(r.(runs := SettleRun(r.runs, ch, ending)), t);
    forall u <- d.threads ensures ThreadInv(d, u, d.threads[u]) { assert ThreadInv(r, u, r.threads[u]); }
  }

  lemma EntriesAfterSettle(r: Registry, d: Registry, ch: Channel, ending: Ending)
    requires EntriesInv(r) && ch in r.entries && d.entries == r.entries && d.roster == r.roster
    requires d.runs == SettleRun(r.runs, ch, ending)
    ensures EntriesInv(d)
  {
  }

  /** The claim's write, by `release`, `stop_all` or the exit callback. */
  lemma SettleKeeps(r: Registry, t: nat, ending: Ending)
    requires Inv(r) && t in r.threads && (r.threads[t].Settling? || r.threads[t].Failing?)
    requires ending.EndReleased? || ending.EndExited?
    ensures Inv(Finish(r.(runs := SettleRun(r.runs, r.threads[t].ch, ending)), t))
  {
    assert ThreadInv(r, t, r.threads[t]);
    ThreadsAfterSettle(r, t, ending);
    SettleKeepsRuns(r.roster, r.runs, r.threads[t].ch, ending);
    var d := Finish(r.(runs := SettleRun(r.runs, r.threads[t].ch, ending)), t);
    SameEntriesSameAnswers(r, d);
    EntriesAfterSettle(r, d, r.threads[t].ch, ending);
  }

  lemma OwnWriteKeepsRuns(roster: Roster, runs: Runs, ch: Channel, ending: Ending)
    requires RunsInv(roster, runs)
    requires ending.EndSuperseded? ==> ch !in roster.published && Attempts(runs, ch) == []
    requires !ending.EndSuperseded? ==>
               ending.EndRetroactive? && ch in roster.published && Retros(Attempts(runs, ch)) == 0
    ensures RunsInv(roster, Write(runs, ch, ending))
  {
    WriteCounts(runs, ch, ending);
    var after := Write(runs, ch, ending);
    forall c ensures AttemptsInv(roster, after, c) { assert AttemptsInv(roster, runs, c); }
  }

  lemma ThreadsAfterOwnWrite(r: Registry, t: nat, ending: Ending)
    requires t in r.threads && (r.threads[t].Superseded? || r.threads[t].EndingExit?) && ThreadsInv(r)
    ensures ThreadsInv(Finish(r.(runs := Write(r.runs, r.threads[t].ch, ending)), t))
  {
    var ch := r.threads[t].ch;
    WriteCounts(r.runs, ch, ending);
    assert ThreadInv(r, t, r.threads[t]);
    var d := Finish(r.(runs := Write(r.runs, ch, ending)), t);
    forall u <- d.threads ensures ThreadInv(d, u, d.threads[u]) { assert ThreadInv(r, u, r.threads[u]); }
  }

  /** The two writes `acquire` makes itself: for a connection that lost the race, or retroactively. */
  lemma OwnWriteKeeps(r: Registry, t: nat, ending: Ending)
    requires Inv(r) && t in r.threads
    requires (r.threads[t].Superseded? && ending == EndSuperseded) ||
             (r.threads[t].EndingExit? && ending == EndRetroactive)
    ensures Inv(Finish(r.(runs := Write(r.runs, r.threads[t].ch, ending)), t))
  {
    assert ThreadInv(r, t, r.threads[t]);
    OwnWriteKeepsRuns(r.roster, r.runs, r.threads[t].ch, ending);
    ThreadsAfterOwnWrite(r, t, ending);
    SameEntriesSameAnswers(r, Finish(r.(runs := Write(r.runs, r.threads[t].ch, ending)), t));
  }

  lemma OutcomeKeeps(r: Registry, t: nat, call: Thread, outcome: Option<E.Outcome>)
    requires Inv(r) && (call.Asking? || call.Awaiting?) && call.ch in r.entries
    requires outcome.Some? && outcome.value.confirmed ==> Backed(r, call.ch)
    ensures Inv(OutcomeStep(r, t, call, outcome))
  {
    match outcome
    case None => GotoKeeps(r, t, Awaiting(call.ch, call.reason, call.stopping));
    case Some(o) =>
      if o.confirmed {
        GotoKeeps(r, t, Claiming(call.ch, call.reason, false));
      } else {
        AnswerKeeps(r, Answer(call.ch, false));
        var told := r.(answers := r.answers + {Answer(call.ch, false)});
        if call.stopping { GotoKeeps(told, t, Forcing(call.ch, call.reason)); } else { FinishKeeps(told, t); }
      }
  }

  lemma AskKeeps(r: Registry, t: nat, sent: bool)
    requires Inv(r) && Enabled(r, Ask(t, sent))
    ensures Inv(AskStep(r, t, sent))
  {
    var call := r.threads[t];
    if !call.ch.receipt {
      GotoKeeps(r, t, Claiming(call.ch, call.reason, false));
    } else {
      var (e, outcome) := E.BeginReleaseStep(r.entries[call.ch], t, sent);
      E.EntryStepKeepsInv(r.entries[call.ch], E.BeginRelease(t, sent));
      EntryMoveKeeps(r, call.ch, e);
      OutcomeKeeps(r.(entries := r.entries[call.ch := e]), t, call, outcome);
    }
  }

  lemma AskDoneKeeps(r: Registry, t: nat)
    requires Inv(r) && Enabled(r, AskDone(t))
    ensures Inv(AskDoneStep(r, t))
  {
    var call := r.threads[t];
    var (e, outcome) := E.EndReleaseStep(r.entries[call.ch]);
    E.EntryStepKeepsInv(r.entries[call.ch], E.EndRelease(t));
    EntryMoveKeeps(r, call.ch, e);
    OutcomeKeeps(r.(entries := r.entries[call.ch := e]), t, call, outcome);
  }

  lemma ClaimerIsBacked(r: Registry, t: nat)
    requires t in r.threads && r.threads[t].Claiming? && ThreadsInv(r)
    ensures r.threads[t].forced || Backed(r, r.threads[t].ch)
  {
    assert ThreadInv(r, t, r.threads[t]);
  }

  lemma LateClaimKeeps(r: Registry, t: nat, ch: Channel, forced: bool)
    requires Inv(r) && (forced || Backed(r, ch))
    ensures Inv(Finish(if forced then r else r.(answers := r.answers + {Answer(ch, true)}), t))
  {
    if forced {
      FinishKeeps(r, t);
    } else {
      AnswerKeeps(r, Answer(ch, true));
      FinishKeeps(r.(answers := r.answers + {Answer(ch, true)}), t);
    }
  }

  lemma TakeClaimKeeps(r: Registry, t: nat)
    requires t in r.threads && r.threads[t].Claiming? && Inv(r)
    ensures Inv(TakeClaimStep(r, t))
  {
    var Claiming(ch, reason, forced) := r.threads[t];
    ClaimerIsBacked(r, t);
    if Registered(r.roster, ch) { ClaimStepKeeps(r, t, ch, Settling(ch, reason, forced)); }
    else { LateClaimKeeps(r, t, ch, forced); }
  }

  lemma SettlerIsBacked(r: Registry, t: nat)
    requires t in r.threads && r.threads[t].Settling? && ThreadsInv(r)
    ensures r.threads[t].forced || Backed(r, r.threads[t].ch)
  {
    assert ThreadInv(r, t, r.threads[t]);
  }

  lemma SettleStepKeeps(r: Registry, t: nat)
    requires t in r.threads && r.threads[t].Settling? && Inv(r)
    ensures Inv(SettleStep(r, t))
  {
    var ch, ending := r.threads[t].ch, EndReleased(r.threads[t].reason);
    var done := Finish(r.(runs := SettleRun(r.runs, ch, ending)), t);
    SettlerIsBacked(r, t);
    SettleKeeps(r, t, ending);
    if r.threads[t].forced {
      assert SettleStep(r, t) == done;
    } else {
      assert SettleStep(r, t) == done.(answers := done.answers + {Answer(ch, true)});
      AnswerKeeps(done, Answer(ch, true));
    }
  }

  lemma ExitKeeps(r: Registry, t: nat, ch: Channel, coded: bool)
    requires Inv(r) && Enabled(r, Exit(t, ch, coded))
    ensures Inv(Step(r, Exit(t, ch, coded)))
  {
    GotoKeeps(r, t, Exiting(ch));
    var g := Goto(r, t, Exiting(ch));
    var d := Step(r, Exit(t, ch, coded));
    assert d == g.(exits := d.exits);
    forall u <- d.threads ensures ThreadInv(d, u, d.threads[u]) { assert ThreadInv(g, u, g.threads[u]); }
  }

  lemma ExitClaimKeeps(r: Registry, t: nat)
    requires t in r.threads && r.threads[t].Exiting? && Inv(r)
    ensures Inv(ExitClaimStep(r, t))
  {
    var ch := r.threads[t].ch;
    if Registered(r.roster, ch) { ClaimStepKeeps(r, t, ch, Failing(ch)); } else { FinishKeeps(r, t); }
  }

  lemma MovesItselfKeeps(e: E.Entry, after: E.Entry)
    requires E.EntryInv(e) && MovesItself(e, after)
    ensures E.EntryInv(after) && (e.confirmed ==> after.confirmed)
  {
    var event :| OwnEvent(event) && E.Enabled(e, event) && after == E.Step(e, event).0;
    E.EntryStepKeepsInv(e, event);
  }

  lemma OnEntryKeeps(r: Registry, ch: Channel, after: E.Entry)
    requires Inv(r) && Enabled(r, OnEntry(ch, after))
    ensures Inv(r.(entries := r.entries[ch := after]))
  {
    MovesItselfKeeps(r.entries[ch], after);
    EntryMoveKeeps(r, ch, after);
  }

  lemma ReleaseKeeps(r: Registry, t: nat, id: nat, reason: string, stopping: bool)
    requires Inv(r) && Enabled(r, Release(t, id, reason, stopping))
    ensures Inv(ReleaseStep(r, t, id, reason, stopping))
  {
    if id in r.roster.byId {
      assert Registered(r.roster, r.roster.byId[id]);
      GotoKeeps(r, t, Asking(r.roster.byId[id], reason, stopping));
    }
  }

  lemma AdvanceKeeps(r: Registry, t: nat, ok: bool, thread: Thread)
    requires Inv(r) && t in r.threads && thread.ch == r.threads[t].ch
    requires match r.threads[t]
             case Launching(_) => thread.Opening?
             case Opening(_) => thread.Publishing?
             case CheckingExit(_) => thread.EndingExit?
             case Forcing(_, _) => thread.Claiming? && thread.forced
             case _ => false
    ensures Inv(if ok then Goto(r, t, thread) else Finish(r, t))
  {
    assert ThreadInv(r, t, r.threads[t]);
    if ok { GotoKeeps(r, t, thread); } else { FinishKeeps(r, t); }
  }

  lemma AsksKeep(r: Registry, v: Event)
    requires Asks(v) && Enabled(r, v) && Inv(r)
    ensures Inv(Step(r, v))
  {
    match v
    case Ask(t, sent) => AskKeeps(r, t, sent);
    case AskDone(t) => AskDoneKeeps(r, t);
  }

  lemma TakesKeep(r: Registry, v: Event)
    requires Takes(v) && Enabled(r, v) && Inv(r)
    ensures Inv(Step(r, v))
  {
    match v
    case TakeClaim(t) => TakeClaimKeeps(r, t);
    case ExitClaim(t) => ExitClaimKeeps(r, t);
  }

  lemma WritesKeep(r: Registry, v: Event)
    requires Writes(v) && Enabled(r, v) && Inv(r)
    ensures Inv(Step(r, v))
  {
    match v
    case EndLoser(t) => OwnWriteKeeps(r, t, EndSuperseded);
    case EndRetro(t) => OwnWriteKeeps(r, t, EndRetroactive);
    case Settle(t) => SettleStepKeeps(r, t);
    case ExitSettle(t) => SettleKeeps(r, t, EndExited);
  }

  lemma WalksKeep(r: Registry, v: Event)
    requires Walks(v) && Enabled(r, v) && Inv(r)
    ensures Inv(Step(r, v))
  {
    match v
    case Launched(t, ok) => AdvanceKeeps(r, t, ok, Opening(r.threads[t].ch));
    case RunOpened(t, ok) => AdvanceKeeps(r, t, ok, Publishing(r.threads[t].ch));
    case CheckExit(t) => AdvanceKeeps(r, t, r.threads[t].ch in r.exits.coded, EndingExit(r.threads[t].ch));
    case Release(t, id, reason, stopping) => ReleaseKeeps(r, t, id, reason, stopping);
    case Forced(t) => AdvanceKeeps(r, t, true, Claiming(r.threads[t].ch, r.threads[t].reason, true));
    case Exit(t, ch, coded) => ExitKeeps(r, t, ch, coded);
  }

  lemma StepKeepsInv(r: Registry, v: Event)
    requires Inv(r) && Enabled(r, v)
    ensures Inv(Step(r, v))
  {
    if Asks(v) { AsksKeep(r, v); }
    else if Takes(v) { TakesKeep(r, v); }
    else if Writes(v) { WritesKeep(r, v); }
    else if Walks(v) { WalksKeep(r, v); }
    else if v.Acquire? { AcquireKeeps(r, v.thread, v.ch); }
    else if v.Publish? { PublishKeeps(r, v.thread); }
    else { OnEntryKeeps(r, v.ch, v.after); }
  }

  // ----- runs -----

  ghost predicate Possible(r: Registry, events: seq<Event>)
    decreases |events|, 0
  {
    events == [] ||
    (Possible(r, events[..|events| - 1]) && Enabled(Run(r, events[..|events| - 1]), events[|events| - 1]))
  }

  ghost function Run(r: Registry, events: seq<Event>): Registry
    requires Possible(r, events)
    decreases |events|, 1
  {
    if events == [] then r else Step(Run(r, events[..|events| - 1]), events[|events| - 1])
  }

  lemma EmptyInv()
    ensures Inv(EMPTY)
  {
  }

  lemma {:induction false} RunKeepsInv(r: Registry, events: seq<Event>)
    requires Inv(r) && Possible(r, events)
    ensures Inv(Run(r, events))
  {
    if events != [] {
      RunKeepsInv(r, events[..|events| - 1]);
      StepKeepsInv(Run(r, events[..|events| - 1]), events[|events| - 1]);
    }
  }

  /** In every interleaving: at most one connection per pair is registered, both maps agree, and the
    * claims of `release`, `stop_all` and the exit callback ask the ledger at most once per connection. */
  lemma ClaimsWriteOnce(events: seq<Event>, ch: Channel)
    requires Possible(EMPTY, events)
    ensures var r := Run(EMPTY, events);
            && RosterInv(r.roster)
            && Claims(Attempts(r.runs, ch)) <= 1
            && (forall c | Registered(r.roster, ch) && Registered(r.roster, c) && c.pair == ch.pair :: c == ch)
  {
    EmptyInv();
    RunKeepsInv(EMPTY, events);
    var r := Run(EMPTY, events);
    assert AttemptsInv(r.roster, r.runs, ch);
    if ch !in r.roster.published { assert Attempts(r.runs, ch) == [] || Attempts(r.runs, ch) == [EndSuperseded]; }
    forall c | Registered(r.roster, ch) && Registered(r.roster, c) && c.pair == ch.pair ensures c == ch {
      assert r.roster.byPair[ch.pair] == ch && r.roster.byPair[c.pair] == c;
    }
  }

  lemma ClaimsAreKept(r: Registry, v: Event)
    requires Enabled(r, v)
    ensures r.roster.claimant.Keys <= Step(r, v).roster.claimant.Keys
  {
  }

  /** A connection that was taken out of the maps never returns to them. */
  lemma {:induction false} RemovedStaysOut(r: Registry, events: seq<Event>, ch: Channel)
    requires Inv(r) && ch in r.roster.claimant && Possible(r, events)
    ensures Inv(Run(r, events)) && ch in Run(r, events).roster.claimant && !Registered(Run(r, events).roster, ch)
  {
    if events != [] {
      var before := events[..|events| - 1];
      RemovedStaysOut(r, before, ch);
      ClaimsAreKept(Run(r, before), events[|events| - 1]);
      assert ch in Run(r, events).roster.claimant.Keys;
    }
    RunKeepsInv(r, events);
  }

  /** `released: True` over a transport that can be asked means the entry answered a close with
    * `ok` and `released` - the whole way down, in every interleaving of registry and transport. */
  lemma ReleasedMeansReceipt(events: seq<Event>, ch: Channel)
    requires Possible(EMPTY, events) && ch.receipt && Answer(ch, true) in Run(EMPTY, events).answers
    ensures ch in Run(EMPTY, events).entries && E.Proven(Run(EMPTY, events).entries[ch])
    ensures exists id, reply ::
              && id in Run(EMPTY, events).entries[ch].answers
              && Run(EMPTY, events).entries[ch].answers[id] == Some(reply) && reply.ok
              && (reply.result == Some(E.Report(true)) ||
                  (reply.result.None? && (reply.error == Some(E.Report(true)) ||
                                          (reply.error.None? && reply.top == E.Report(true)))))
  {
    EmptyInv();
    RunKeepsInv(EMPTY, events);
    assert Backed(Run(EMPTY, events), ch);
    var answers := Run(EMPTY, events).entries[ch].answers;
    var id :| id in answers && E.Receipt(answers[id]);
    assert answers[id] == Some(answers[id].value);
  }

  /** Asking for a release, whatever comes of it, moves neither map and writes nothing. */
  lemma UnconfirmedChangesNothing(r: Registry, t: nat, sent: bool)
    ensures Enabled(r, Ask(t, sent)) ==> AskStep(r, t, sent).roster == r.roster && AskStep(r, t, sent).runs == r.runs
    ensures Enabled(r, AskDone(t)) ==> AskDoneStep(r, t).roster == r.roster && AskDoneStep(r, t).runs == r.runs
    ensures Enabled(r, AskDone(t)) && !E.EndReleaseStep(r.entries[r.threads[t].ch]).1.value.confirmed ==>
              (t in AskDoneStep(r, t).threads ==> AskDoneStep(r, t).threads[t].Forcing? && r.threads[t].stopping)
  {
  }
}
