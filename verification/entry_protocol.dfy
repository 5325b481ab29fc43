/** The managed channel's transport as a state machine. `request_release` and `terminate` hold the
  * release lock from their check to the end of their wait, so only the reader thread's steps (a
  * reply, an event, the entry's exit) fall between the two halves of such a call. */
module EntryProtocol {
  import opened Wrappers

  datatype Report = Report(released: bool)

  /** One reply of the entry: its flag, its result object if it has one, its error object if it has one that is not
    * empty, and the reply as an object. */
  datatype Reply = Reply(ok: bool, result: Option<Report>, error: Option<Report>, top: Report)

  datatype Reason =
    | Released
    | NeverEstablished
    | Unreachable
    | CloseTimeout
    | ExitedWithoutReceipt
    | CloseRefused
    | Unconfirmed

  datatype Outcome = Outcome(confirmed: bool, reason: Reason)

  datatype Call = Releasing(thread: nat) | Terminating(thread: nat)

  datatype Entry = Entry(
    established: bool,
    endReported: bool,
    terminated: bool,
    confirmed: bool,                    // `_release_confirmed is not None`
    pendingClose: Option<nat>,
    control: set<nat>,                  // requests nobody has answered yet
    answers: map<nat, Option<Reply>>,   // answered requests; None: abandoned with the process
    holder: Option<Call>,               // who holds the release lock, waiting
    nextId: nat,
    exits: nat)                         // history: how often `on_exit` was called

  const STARTED: Entry := Entry(false, false, false, false, None, {}, map[], None, 0, 0)

  function ReportOf(reply: Reply): Report {
    match reply.result
    case Some(report) => report
    case None => match reply.error case Some(report) => report case None => reply.top
  }

  /** The OS-confirmed receipt. */
  predicate Confirms(reply: Reply) {
    reply.ok && ReportOf(reply).released
  }

  function RecordReceipt(e: Entry, reply: Option<Reply>): (Entry, Outcome) {
    if e.confirmed then (e, Outcome(true, Released))
    else
      match reply
      case None => (e, Outcome(false, ExitedWithoutReceipt))
      case Some(r) =>
        if Confirms(r) then (e.(confirmed := true), Outcome(true, Released))
        else (e, Outcome(false, if !r.ok then CloseRefused else Unconfirmed))
  }

  /** Writing the `close` request: it is registered first, so no reply can be missed. */
  function WriteClose(e: Entry, sent: bool): Entry {
    if sent then e.(control := e.control + {e.nextId}, pendingClose := Some(e.nextId), nextId := e.nextId + 1)
    else e.(nextId := e.nextId + 1)
  }

  function ReportEnd(e: Entry): Entry {
    if e.endReported then e else e.(endReported := true, exits := e.exits + 1)
  }

  datatype Event =
    | Establish
    | BeginRelease(thread: nat, sent: bool)
    | EndRelease(thread: nat)
    | OwnEnding
    | BeginTerminate(thread: nat, sent: bool)
    | EndTerminate(thread: nat)
    | Answered(id: nat, reply: Reply)
    | TransportEnd
    | EntryGone

  /** Has the close the holder waits for been answered? If not, the wait ends by timing out. */
  predicate CloseAnswered(e: Entry) {
    e.pendingClose.Some? && e.pendingClose.value in e.answers
  }

  predicate Enabled(e: Entry, v: Event) {
    match v
    case BeginRelease(_, _) => e.holder.None?
    case BeginTerminate(_, _) => e.holder.None?
    case EndRelease(t) => e.holder == Some(Releasing(t))
    case EndTerminate(t) => e.holder == Some(Terminating(t))
    case _ => true
  }

  function BeginReleaseStep(e: Entry, t: nat, sent: bool): (Entry, Option<Outcome>) {
    if e.confirmed then (e, Some(Outcome(true, Released)))
    else if !e.established then (e, Some(Outcome(false, NeverEstablished)))
    else if e.pendingClose.Some? then (e.(holder := Some(Releasing(t))), None)
    else
      var d := WriteClose(e.(endReported := true), sent);
      if sent then (d.(holder := Some(Releasing(t))), None) else (d, Some(Outcome(false, Unreachable)))
  }

  function EndReleaseStep(e: Entry): (Entry, Option<Outcome>) {
    var d := e.(holder := None);
    if !CloseAnswered(e) then (d, Some(Outcome(false, CloseTimeout)))
    else
      var (r, outcome) := RecordReceipt(d.(pendingClose := None), e.answers[e.pendingClose.value]);
      (if outcome.confirmed then r.(terminated := true) else r, Some(outcome))
  }

  function BeginTerminateStep(e: Entry, t: nat, sent: bool): Entry {
    var d := if e.established && !e.confirmed && e.pendingClose.None? then WriteClose(e, sent) else e;
    if e.established && !e.confirmed && d.pendingClose.Some? then d.(holder := Some(Terminating(t)))
    else d.(terminated := true)
  }

  function EndTerminateStep(e: Entry): Entry {
    var d := e.(holder := None, terminated := true);
    if !CloseAnswered(e) then d
    else RecordReceipt(d.(pendingClose := None), e.answers[e.pendingClose.value]).0
  }

  function AnsweredStep(e: Entry, id: nat, reply: Reply): Entry {
    if id !in e.control then e
    else e.(control := e.control - {id}, answers := e.answers[id := Some(reply)])
  }

  function AbandonStep(e: Entry): Entry {
    e.(control := {}, answers := e.answers + map id <- e.control :: None)
  }

  function Step(e: Entry, v: Event): (Entry, Option<Outcome>)
    requires Enabled(e, v)
  {
    match v
    case Establish => (e.(established := true), None)
    case BeginRelease(t, sent) => BeginReleaseStep(e, t, sent)
    case EndRelease(_) => EndReleaseStep(e)
    case OwnEnding => (e.(endReported := true), None)
    case BeginTerminate(t, sent) => (BeginTerminateStep(e, t, sent), None)
    case EndTerminate(_) => (EndTerminateStep(e), None)
    case Answered(id, reply) => (AnsweredStep(e, id, reply), None)
    case TransportEnd => (ReportEnd(e), None)
    case EntryGone => (ReportEnd(AbandonStep(e)), None)
  }

  // ----- what every step keeps -----

  /** Every unanswered close is the pending one. */
  ghost predicate OneCloseInv(e: Entry) {
    && (forall id <- e.control :: e.pendingClose == Some(id))
    && (e.pendingClose.Some? ==> e.pendingClose.value < e.nextId
                                 && (e.pendingClose.value in e.control <==> e.pendingClose.value !in e.answers))
    && (forall id <- e.answers :: id < e.nextId)
    && (e.holder.Some? ==> e.pendingClose.Some?)
  }

  /** The released flag of a reply, read off its own fields: the result's if there is one, else the error's if there is
    * one, else the reply's. */
  ghost predicate SaysReleased(reply: Reply, released: bool) {
    || reply.result == Some(Report(released))
    || (reply.result.None? && reply.error == Some(Report(released)))
    || (reply.result.None? && reply.error.None? && reply.top == Report(released))
  }

  /** An answer to a close: `ok`, and everything the entry started was released. */
  ghost predicate Receipt(answer: Option<Reply>) {
    answer.Some? && answer.value.ok && SaysReleased(answer.value, true)
  }

  /** The entry really answered a close with a receipt. */
  ghost predicate Proven(e: Entry) {
    exists id <- e.answers :: Receipt(e.answers[id])
  }

  ghost predicate EntryInv(e: Entry) {
    && OneCloseInv(e)
    && (e.confirmed ==> Proven(e))
    && e.exits <= (if e.endReported then 1 else 0)
  }

  lemma StartedInv()
    ensures EntryInv(STARTED)
  {
  }

  /** Answers are only ever added: what was proven stays proven. */
  lemma AnswersOnlyGrow(e: Entry, v: Event)
    requires OneCloseInv(e) && Enabled(e, v)
    ensures forall id <- e.answers :: id in Step(e, v).0.answers && Step(e, v).0.answers[id] == e.answers[id]
    ensures Proven(e) ==> Proven(Step(e, v).0)
  {
    var d := Step(e, v).0;
    forall id <- e.answers ensures id in d.answers && d.answers[id] == e.answers[id] {
      assert id !in e.control;
    }
    if Proven(e) {
      var id :| id in e.answers && Receipt(e.answers[id]);
      assert d.answers[id] == e.answers[id];
    }
  }

  lemma CloseKeptByAsking(e: Entry, t: nat, sent: bool)
    requires OneCloseInv(e) && e.holder.None?
    ensures OneCloseInv(BeginReleaseStep(e, t, sent).0)
    ensures OneCloseInv(BeginTerminateStep(e, t, sent))
  {
  }

  lemma CloseKeptByWaiting(e: Entry)
    requires OneCloseInv(e)
    ensures OneCloseInv(EndReleaseStep(e).0)
    ensures OneCloseInv(EndTerminateStep(e))
  {
  }

  lemma CloseKeptByAnswer(e: Entry, id: nat, reply: Reply)
    requires OneCloseInv(e)
    ensures OneCloseInv(AnsweredStep(e, id, reply))
    ensures OneCloseInv(AbandonStep(e))
  {
  }

  lemma OneCloseKept(e: Entry, v: Event)
    requires OneCloseInv(e) && Enabled(e, v)
    ensures OneCloseInv(Step(e, v).0)
  {
    match v
    case BeginRelease(t, sent) => CloseKeptByAsking(e, t, sent);
    case BeginTerminate(t, sent) => CloseKeptByAsking(e, t, sent);
    case EndRelease(_) => CloseKeptByWaiting(e);
    case EndTerminate(_) => CloseKeptByWaiting(e);
    case Answered(id, reply) => CloseKeptByAnswer(e, id, reply);
    case EntryGone => CloseKeptByAnswer(e, 0, Reply(false, None, None, Report(false)));
    case _ =>
  }

  /** A confirmation is only ever recorded from a receipt the entry gave. */
  lemma ConfirmedMeansProven(e: Entry, v: Event)
    requires OneCloseInv(e) && Enabled(e, v) && (e.confirmed ==> Proven(e)) && Step(e, v).0.confirmed
    ensures Proven(Step(e, v).0)
  {
    AnswersOnlyGrow(e, v);
    if !e.confirmed {
      var id := e.pendingClose.value;
      assert Receipt(e.answers[id]);
      assert id in Step(e, v).0.answers;
    }
  }

  /** `on_exit` is called once at most, and a confirmation is never taken back. */
  lemma ExitsOnce(e: Entry, v: Event)
    requires Enabled(e, v) && e.exits <= (if e.endReported then 1 else 0)
    ensures var d := Step(e, v).0; d.exits <= (if d.endReported then 1 else 0) && (e.confirmed ==> d.confirmed)
  {
  }

  lemma EntryStepKeepsInv(e: Entry, v: Event)
    requires EntryInv(e) && Enabled(e, v)
    ensures EntryInv(Step(e, v).0)
    ensures Step(e, v).1.Some? && Step(e, v).1.value.confirmed ==> Step(e, v).0.confirmed
    ensures e.confirmed ==> Step(e, v).0.confirmed
  {
    OneCloseKept(e, v);
    ExitsOnce(e, v);
    if Step(e, v).0.confirmed { ConfirmedMeansProven(e, v); }
  }

  // ----- runs -----

  ghost predicate Possible(e: Entry, events: seq<Event>)
    decreases |events|, 0
  {
    events == [] ||
    (Possible(e, events[..|events| - 1]) && Enabled(Run(e, events[..|events| - 1]), events[|events| - 1]))
  }

  ghost function Run(e: Entry, events: seq<Event>): Entry
    requires Possible(e, events)
    decreases |events|, 1
  {
    if events == [] then e else Step(Run(e, events[..|events| - 1]), events[|events| - 1]).0
  }

  /** At most one close is ever unanswered, `on_exit` fires at most once, and a confirmation the
    * transport reports is backed by the entry's own receipt - in every interleaving. */
  lemma {:induction false} EntryRunSafe(events: seq<Event>)
    requires Possible(STARTED, events)
    ensures var e := Run(STARTED, events);
            && EntryInv(e) && |e.control| <= 1 && e.exits <= 1
            && (e.confirmed ==> Proven(e))
  {
    if events == [] {
      StartedInv();
    } else {
      EntryRunSafe(events[..|events| - 1]);
      EntryStepKeepsInv(Run(STARTED, events[..|events| - 1]), events[|events| - 1]);
    }
    var e := Run(STARTED, events);
    if e.control != {} {
      var id :| id in e.control;
      assert e.control == {id};
    }
  }

  /** A confirmation is permanent. */
  lemma {:induction false} ConfirmationIsPermanent(e: Entry, events: seq<Event>)
    requires EntryInv(e) && e.confirmed && Possible(e, events)
    ensures EntryInv(Run(e, events)) && Run(e, events).confirmed
  {
    if events != [] {
      ConfirmationIsPermanent(e, events[..|events| - 1]);
      EntryStepKeepsInv(Run(e, events[..|events| - 1]), events[|events| - 1]);
    }
  }

  /** A wait that times out keeps its close: when the receipt comes later, the next request finds it
    * and confirms, without a second close being written. */
  lemma LateReceiptConfirms(e: Entry, t: nat, reply: Reply, u: nat, sent: bool)
    requires EntryInv(e) && Enabled(e, EndRelease(t)) && !CloseAnswered(e) && !e.confirmed && e.established
    requires Receipt(Some(reply))
    ensures var timedOut := EndReleaseStep(e).0;
            var late := AnsweredStep(timedOut, e.pendingClose.value, reply);
            var asked := BeginReleaseStep(late, u, sent);
            && EndReleaseStep(e).1 == Some(Outcome(false, CloseTimeout))
            && asked.1.None? && asked.0.nextId == e.nextId && asked.0.control == {}
            && EndReleaseStep(asked.0).1 == Some(Outcome(true, Released))
  {
    var late := AnsweredStep(EndReleaseStep(e).0, e.pendingClose.value, reply);
    assert e.control == {e.pendingClose.value};
    assert late.control == {};
  }

  /** In every run, what a wait that ends with an answer tells the caller: the confirmation only for a reply that is
    * `ok` and says released; a reply that admits a survivor is unconfirmed, one that is not `ok` is a refusal, and
    * none at all means the entry is gone. */
  lemma AnswerIsTold(events: seq<Event>, t: nat)
    requires Possible(STARTED, events) && Enabled(Run(STARTED, events), EndRelease(t))
    requires CloseAnswered(Run(STARTED, events)) && !Run(STARTED, events).confirmed
    ensures var e := Run(STARTED, events);
            var answer, (d, outcome) := e.answers[e.pendingClose.value], Step(e, EndRelease(t));
            && (answer.None? ==> outcome == Some(Outcome(false, ExitedWithoutReceipt)))
            && (answer.Some? && !answer.value.ok ==> outcome == Some(Outcome(false, CloseRefused)))
            && (answer.Some? && answer.value.ok && SaysReleased(answer.value, false) ==>
                  outcome == Some(Outcome(false, Unconfirmed)))
            && (Receipt(answer) ==> outcome == Some(Outcome(true, Released)) && d.terminated)
            && d.pendingClose.None? && d.holder.None? && d.confirmed == (outcome == Some(Outcome(true, Released)))
  {
    EntryRunSafe(events);
  }

  /** What a call is told at once, and when it waits instead. */
  lemma ToldAtOnce(events: seq<Event>, t: nat, sent: bool)
    requires Possible(STARTED, events) && Enabled(Run(STARTED, events), BeginRelease(t, sent))
    ensures var e := Run(STARTED, events);
            var (d, outcome) := Step(e, BeginRelease(t, sent));
            && (outcome == Some(Outcome(true, Released)) <==> e.confirmed)
            && (outcome == Some(Outcome(false, NeverEstablished)) <==> !e.confirmed && !e.established)
            && (outcome == Some(Outcome(false, Unreachable)) <==>
                  !e.confirmed && e.established && e.pendingClose.None? && !sent)
            && (outcome.None? <==> !e.confirmed && e.established && (e.pendingClose.Some? || sent))
            && (outcome.None? ==> d.holder == Some(Releasing(t)) && d.pendingClose ==
                                  if e.pendingClose.Some? then e.pendingClose else Some(e.nextId))
            && (e.pendingClose.Some? ==> d.control == e.control && d.nextId == e.nextId)
  {
    EntryRunSafe(events);
  }

  /** When the entry is gone, the call that waits for it ends without a receipt, unless it was answered before. */
  lemma GoneEntryAnswersNobody(e: Entry, t: nat)
    requires EntryInv(e) && Enabled(e, EndRelease(t)) && !e.confirmed && !CloseAnswered(e)
    ensures EndReleaseStep(Step(e, EntryGone).0).1 == Some(Outcome(false, ExitedWithoutReceipt))
  {
    assert e.pendingClose.value in e.control;
  }

  // ----- the forced ending -----

  /** A forced ending of an established entry that has not confirmed waits for a close: the one that is out, or a new
    * one. It stops the entry without waiting only if nothing could be asked. */
  lemma ForcedEndingAsksFirst(e: Entry, t: nat, sent: bool)
    requires EntryInv(e) && Enabled(e, BeginTerminate(t, sent))
    ensures var d, asks := Step(e, BeginTerminate(t, sent)).0, e.established && !e.confirmed;
            && (d.holder.Some? <==> asks && (e.pendingClose.Some? || sent))
            && (d.holder.Some? ==> d.holder == Some(Terminating(t)) && d.terminated == e.terminated)
            && (d.holder.Some? ==> d.pendingClose ==
                                   if e.pendingClose.Some? then e.pendingClose else Some(e.nextId))
            && (d.holder.Some? && e.pendingClose.None? ==> d.control == {e.nextId})
            && (d.holder.None? ==> d.terminated && d.control == e.control)
            && (asks && e.pendingClose.None? ==> d.nextId == e.nextId + 1)
  {
  }

  /** Its wait over, the entry is stopped, and a receipt that came is recorded all the same. */
  lemma ForcedEndingRecords(e: Entry, t: nat)
    requires EntryInv(e) && Enabled(e, EndTerminate(t))
    ensures var d := Step(e, EndTerminate(t)).0;
            && d.terminated && d.holder.None?
            && (d.confirmed <==> (e.confirmed || (CloseAnswered(e) && Receipt(e.answers[e.pendingClose.value]))))
  {
  }

  /** No established entry is stopped unasked: when it is stopped it has confirmed, or a close was written or tried. */
  lemma StoppedAfterAsking(e: Entry, v: Event)
    requires EntryInv(e) && Enabled(e, v) && e.established && !e.terminated && Step(e, v).0.terminated
    ensures e.confirmed || Step(e, v).0.nextId > 0
  {
  }

  // ----- the report of the end -----

  /** After the events `before`, the event ends the transport for good: whatever comes later is not reported. */
  ghost predicate Ends(before: seq<Event>, v: Event)
    requires Possible(STARTED, before)
  {
    var e := Run(STARTED, before);
    || v.OwnEnding? || v.TransportEnd? || v.EntryGone?
    || (v.BeginRelease? && e.established && !e.confirmed && e.pendingClose.None?)
  }

  ghost predicate EndedIn(events: seq<Event>)
    requires Possible(STARTED, events)
  {
    events != [] && (EndedIn(events[..|events| - 1]) || Ends(events[..|events| - 1], events[|events| - 1]))
  }

  /** The entry's own end came first, before any ending this side asked for. */
  ghost predicate EndedByItself(events: seq<Event>)
    requires Possible(STARTED, events)
  {
    events != [] &&
    (EndedByItself(events[..|events| - 1]) ||
     (!EndedIn(events[..|events| - 1]) && (events[|events| - 1].TransportEnd? || events[|events| - 1].EntryGone?)))
  }

  lemma ReportMoves(e: Entry, v: Event)
    requires Enabled(e, v)
    ensures var d, gone := Step(e, v).0, v.TransportEnd? || v.EntryGone?;
            && d.endReported == (e.endReported || gone || v.OwnEnding? ||
                                 (v.BeginRelease? && e.established && !e.confirmed && e.pendingClose.None?))
            && d.exits == e.exits + if gone && !e.endReported then 1 else 0
  {
  }

  /** `on_exit` is called exactly if the Agent's end came before this side asked for it. */
  lemma {:induction false} ReportedExactly(events: seq<Event>)
    requires Possible(STARTED, events)
    ensures Run(STARTED, events).endReported <==> EndedIn(events)
    ensures Run(STARTED, events).exits == if EndedByItself(events) then 1 else 0
    ensures EndedByItself(events) ==> EndedIn(events)
  {
    if events != [] {
      ReportedExactly(events[..|events| - 1]);
      ReportMoves(Run(STARTED, events[..|events| - 1]), events[|events| - 1]);
    }
  }

  /** A refused or survivor-admitting receipt leaves the release re-askable: the next request writes
    * a new close. */
  lemma FailedReceiptIsRetryable(e: Entry, t: nat, u: nat)
    requires EntryInv(e) && Enabled(e, EndRelease(t)) && CloseAnswered(e) && !e.confirmed && e.established
    requires var answer := e.answers[e.pendingClose.value];
             answer.Some? ==> !answer.value.ok || SaysReleased(answer.value, false)
    ensures var failed := EndReleaseStep(e);
            && failed.1.Some? && !failed.1.value.confirmed && !failed.0.confirmed && failed.0.terminated == e.terminated
            && BeginReleaseStep(failed.0, u, true).0.control == {e.nextId}
  {
    assert e.pendingClose.value !in e.control;
  }
}
