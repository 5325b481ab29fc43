/** What the run ledger records and what the registry still shows: a recorded ending is final, but a connection can stay
  * registered although its run has ended. */
module RegistryLedger {
  import opened Wrappers
  import opened RegistryProtocol
  import opened RegistryEndings
  import E = EntryProtocol

  // ----- the recorded ending -----

  predicate RowsKept(a: Runs, b: Runs) {
    forall ch <- a.recorded :: ch in b.recorded && b.recorded[ch] == a.recorded[ch]
  }

  /** No step changes or removes a recorded ending. */
  lemma RecordedIsFinal(r: Registry, v: Event)
    requires Enabled(r, v)
    ensures RowsKept(r.runs, Step(r, v).runs)
  {
    if !Writes(v) { Moves(r, v); }
  }

  /** The row of a run is what the ledger was asked first. */
  ghost predicate FirstRecorded(runs: Runs) {
    forall ch :: if Attempts(runs, ch) == [] then ch !in runs.recorded
                 else ch in runs.recorded && runs.recorded[ch] == Attempts(runs, ch)[0]
  }

  lemma WriteRecordsFirst(runs: Runs, ch: Channel, ending: Ending)
    requires FirstRecorded(runs)
    ensures FirstRecorded(Write(runs, ch, ending)) && FirstRecorded(SettleRun(runs, ch, ending))
  {
    var after := Write(runs, ch, ending);
    forall c ensures Attempts(after, c) == if c == ch then Attempts(runs, ch) + [ending] else Attempts(runs, c) {}
    assert forall c :: Attempts(SettleRun(runs, ch, ending), c) == Attempts(after, c);
  }

  lemma FirstRecordedStays(r: Registry, v: Event)
    requires Enabled(r, v) && FirstRecorded(r.runs)
    ensures FirstRecorded(Step(r, v).runs)
  {
    match v
    case EndLoser(t) => WriteRecordsFirst(r.runs, r.threads[t].ch, EndSuperseded);
    case EndRetro(t) => WriteRecordsFirst(r.runs, r.threads[t].ch, EndRetroactive);
    case Settle(t) => WriteRecordsFirst(r.runs, r.threads[t].ch, EndReleased(r.threads[t].reason));
    case ExitSettle(t) => WriteRecordsFirst(r.runs, r.threads[t].ch, EndExited);
    case _ => Moves(r, v);
  }

  lemma {:induction false} RecordedIsFirst(events: seq<Event>)
    requires Possible(EMPTY, events)
    ensures FirstRecorded(Run(EMPTY, events).runs)
  {
    if events != [] {
      RecordedIsFirst(events[..|events| - 1]);
      FirstRecordedStays(Run(EMPTY, events[..|events| - 1]), events[|events| - 1]);
    }
  }

  /** Over every run: a run has at most one recorded ending, which is the first the ledger was asked for, and it stays
    * through whatever follows. */
  lemma {:induction false} OneEndingIsRecorded(before: seq<Event>, after: seq<Event>)
    requires Possible(EMPTY, before) && Possible(Run(EMPTY, before), after)
    ensures FirstRecorded(Run(EMPTY, before).runs)
    ensures RowsKept(Run(EMPTY, before).runs, Run(Run(EMPTY, before), after).runs)
  {
    RecordedIsFirst(before);
    if after != [] {
      OneEndingIsRecorded(before, after[..|after| - 1]);
      RecordedIsFinal(Run(Run(EMPTY, before), after[..|after| - 1]), after[|after| - 1]);
    }
  }

  /** A connection that was taken out of the maps, or lost the race, has its ending recorded as soon as no thread is
    * busy with it: one, whatever `release`, `stop_all`, the exit callback and `acquire` asked. */
  lemma EveryRunEndsOnce(events: seq<Event>, ch: Channel)
    requires Possible(EMPTY, events) && NoThreadLeft(Run(EMPTY, events), ch)
    requires ch in Run(EMPTY, events).roster.claimant || LostTheRace(events, ch)
    ensures var runs := Run(EMPTY, events).runs;
            && ch in runs.recorded
            && Attempts(runs, ch) != []
            && runs.recorded[ch] == Attempts(runs, ch)[0]
    ensures LostTheRace(events, ch) ==> Run(EMPTY, events).runs.recorded[ch] == EndSuperseded
  {
    RecordedIsFirst(events);
    if LostTheRace(events, ch) { SupersededEndsOnce(events, ch); } else { AskedTwiceExactly(events, ch); }
  }

  // ----- registered connections whose run has ended -----

  lemma OnlyRetros(attempts: seq<Ending>)
    requires |attempts| == Retros(attempts) <= 1
    ensures attempts == [] || attempts == [EndRetroactive]
  {
    if attempts != [] { assert attempts == [attempts[0]] && attempts[..0] == []; }
  }

  /** Of a registered connection the ledger was asked nothing but the retroactive ending. */
  lemma RegisteredAttempts(r: Registry, ch: Channel)
    requires Inv(r) && Registered(r.roster, ch)
    ensures Attempts(r.runs, ch) == [] || Attempts(r.runs, ch) == [EndRetroactive]
  {
    assert AttemptsInv(r.roster, r.runs, ch);
    assert ch in r.roster.published && ch !in r.runs.settled;
    OnlyRetros(Attempts(r.runs, ch));
  }

  lemma RetrosOfOne()
    ensures Retros([EndRetroactive]) == 1
  {
    assert [EndRetroactive][..0] == [];
  }

  /** Which registered connections are dead: the run of one has ended only if `acquire` found its exit code, and as soon
    * as no thread is busy with it, exactly then. */
  lemma RegisteredRunIsOpenExactly(events: seq<Event>, ch: Channel)
    requires Possible(EMPTY, events) && Registered(Run(EMPTY, events).roster, ch)
    ensures var r := Run(EMPTY, events);
            && (ch in r.runs.recorded ==> SawExit(events, ch) && r.runs.recorded[ch] == EndRetroactive)
            && (NoThreadLeft(r, ch) ==> (ch in r.runs.recorded <==> SawExit(events, ch)))
  {
    var r := Run(EMPTY, events);
    EmptyInv();
    RunKeepsInv(EMPTY, events);
    GuardDecides(events, ch);
    RecordedIsFirst(events);
    RegisteredAttempts(r, ch);
    RetrosOfOne();
  }

  // ----- the exit callback -----

  /** How often the exit callback of a connection ran. */
  function CallbacksIn(events: seq<Event>, ch: Channel): nat {
    if events == [] then 0
    else
      var last := events[|events| - 1];
      CallbacksIn(events[..|events| - 1], ch) + if last.Exit? && last.ch == ch then 1 else 0
  }

  /** A callback that ran was reported by the transport, and an exit code was set by a callback. */
  ghost predicate Reported(r: Registry, ch: Channel) {
    && (Callbacks(r, ch) > 0 ==> ch in r.entries && Callbacks(r, ch) <= r.entries[ch].exits)
    && (ch in r.exits.coded ==> Callbacks(r, ch) > 0)
  }

  predicate ExitsKept(e: E.Entry, after: E.Entry) {
    after.exits >= e.exits
  }

  lemma EntryExitsKept(e: E.Entry, event: E.Event)
    requires E.Enabled(e, event)
    ensures ExitsKept(e, E.Step(e, event).0)
  {
  }

  lemma MovesKeepExits(e: E.Entry, after: E.Entry)
    requires MovesItself(e, after)
    ensures ExitsKept(e, after)
  {
    var event :| OwnEvent(event) && E.Enabled(e, event) && after == E.Step(e, event).0;
    EntryExitsKept(e, event);
  }

  lemma AskKeepsExits(r: Registry, t: nat, sent: bool, ch: Channel)
    requires Enabled(r, Ask(t, sent)) && ch in r.entries
    ensures ch in AskStep(r, t, sent).entries && AskStep(r, t, sent).entries[ch].exits == r.entries[ch].exits
  {
  }

  lemma AskDoneKeepsExits(r: Registry, t: nat, ch: Channel)
    requires Enabled(r, AskDone(t)) && ch in r.entries
    ensures ch in AskDoneStep(r, t).entries && AskDoneStep(r, t).entries[ch].exits == r.entries[ch].exits
  {
  }

  lemma OthersKeepExits(r: Registry, v: Event, ch: Channel)
    requires !Asks(v) && !v.OnEntry? && Enabled(r, v) && ch in r.entries
    ensures ch in Step(r, v).entries && Step(r, v).entries[ch] == r.entries[ch]
  {
    if Takes(v) { TakeMoves(r, v); }
    else if Writes(v) { WriteMoves(r, v); }
    else if Walks(v) { WalkMoves(r, v); }
  }

  lemma EntriesKeepExits(r: Registry, v: Event, ch: Channel)
    requires Enabled(r, v) && ch in r.entries
    ensures ch in Step(r, v).entries && ExitsKept(r.entries[ch], Step(r, v).entries[ch])
  {
    if v.Ask? { AskKeepsExits(r, v.thread, v.sent, ch); }
    else if v.AskDone? { AskDoneKeepsExits(r, v.thread, ch); }
    else if v.OnEntry? { MovesKeepExits(r.entries[v.ch], v.after); }
    else { OthersKeepExits(r, v, ch); }
  }

  lemma CallbacksMove(r: Registry, v: Event, ch: Channel)
    requires Enabled(r, v)
    ensures Callbacks(Step(r, v), ch) == Callbacks(r, ch) + if v.Exit? && v.ch == ch then 1 else 0
    ensures ch in Step(r, v).exits.coded ==> ch in r.exits.coded || (v.Exit? && v.ch == ch)
  {
  }

  lemma ReportedStays(r: Registry, v: Event, ch: Channel)
    requires Enabled(r, v) && Reported(r, ch)
    ensures Reported(Step(r, v), ch)
  {
    CallbacksMove(r, v, ch);
    if ch in r.entries { EntriesKeepExits(r, v, ch); }
  }

  /** The exit callback of a connection runs once at most, only after its transport reported the end, and nothing but
    * the callback sets an exit code. */
  lemma {:induction false} OneExitCallback(events: seq<Event>, ch: Channel)
    requires Possible(EMPTY, events)
    ensures CallbacksIn(events, ch) == Callbacks(Run(EMPTY, events), ch) <= 1
    ensures Reported(Run(EMPTY, events), ch)
  {
    if events != [] {
      var init, v := events[..|events| - 1], events[|events| - 1];
      OneExitCallback(init, ch);
      ReportedStays(Run(EMPTY, init), v, ch);
      CallbacksMove(Run(EMPTY, init), v, ch);
    }
    LiveRun(events);
    var r := Run(EMPTY, events);
    if ch in r.entries { assert E.EntryInv(r.entries[ch]); }
  }

  // ----- a release that is not confirmed -----

  /** At each of its steps the call is still asking. */
  ghost predicate StillAsking(r: Registry, events: seq<Event>, t: nat)
    requires Possible(r, events)
  {
    events == [] ||
    (StillAsking(r, events[..|events| - 1], t) &&
     (Acts(events[|events| - 1], t) ==> Asks(events[|events| - 1])))
  }

  predicate Acts(v: Event, t: nat) {
    !v.OnEntry? && v.thread == t
  }

  ghost predicate ChangedNothing(r: Registry, events: seq<Event>, t: nat)
    requires Possible(r, events)
  {
    events == [] ||
    (var s := Run(r, events[..|events| - 1]);
     ChangedNothing(r, events[..|events| - 1], t) &&
     (Acts(events[|events| - 1], t) ==>
        Run(r, events).roster == s.roster && Run(r, events).runs == s.runs))
  }

  /** As long as a call of `release` is not confirmed, whatever else happens meanwhile, its own steps move neither map
    * and ask nothing of the ledger. */
  lemma {:induction false} UnconfirmedReleaseChangesNothing(r: Registry, events: seq<Event>, t: nat)
    requires Possible(r, events) && StillAsking(r, events, t)
    ensures ChangedNothing(r, events, t)
  {
    if events != [] {
      var init, v := events[..|events| - 1], events[|events| - 1];
      UnconfirmedReleaseChangesNothing(r, init, t);
      if Acts(v, t) { AskMoves(Run(r, init), v); }
    }
  }

  // ----- a connection that is dead and still handed out -----

  lemma Next(events: seq<Event>, v: Event) returns (more: seq<Event>)
    requires Possible(EMPTY, events) && Enabled(Run(EMPTY, events), v)
    ensures Possible(EMPTY, more) && Run(EMPTY, more) == Step(Run(EMPTY, events), v)
    ensures more == events + [v]
  {
    Extend(EMPTY, events, v);
    more := events + [v];
  }

  /** The transport is established and reports its end. */
  const ENDED := E.ReportEnd(E.STARTED.(established := true))

  lemma EndedMoves()
    ensures MovesItself(E.STARTED, E.STARTED.(established := true))
    ensures MovesItself(E.STARTED.(established := true), ENDED)
  {
    var up := E.STARTED.(established := true);
    assert OwnEvent(E.Establish) && E.Enabled(E.STARTED, E.Establish) && up == E.Step(E.STARTED, E.Establish).0;
    assert OwnEvent(E.TransportEnd) && E.Enabled(up, E.TransportEnd) && ENDED == E.Step(up, E.TransportEnd).0;
  }

  /** A registry that knows one connection, acquired by thread 1, whose transport has reported its end. */
  function OneConnection(ch: Channel, roster: Roster, runs: Runs, threads: map<nat, Thread>, called: bool): Registry {
    Registry(roster, runs, threads, map[ch := 1], map[ch := ENDED],
             if called then Exits({ch}, map[ch := 1]) else Exits({}, map[]), {})
  }

  const UNLISTED := Roster(map[], map[], {}, map[])

  const UNASKED := Runs(map[], map[], {})

  function Listed(ch: Channel): Roster {
    Roster(map[ch.pair := ch], map[ch.id := ch], {ch}, map[])
  }

  function Failed(ch: Channel): Runs {
    Runs(map[ch := [EndRetroactive]], map[ch := EndRetroactive], {})
  }

  /** What is left when all has been done: no thread, the dead connection registered, its failure recorded. */
  function Dead(ch: Channel): Registry {
    OneConnection(ch, Listed(ch), Failed(ch), map[], true)
  }

  /** The entry comes up, and the Harness behind it ends while `acquire` still opens the run. */
  lemma Opened(ch: Channel) returns (events: seq<Event>)
    ensures Possible(EMPTY, events)
    ensures Run(EMPTY, events) == OneConnection(ch, UNLISTED, UNASKED, map[1 := Opening(ch)], false)
  {
    EndedMoves();
    events := Next([], Acquire(1, ch));
    events := Next(events, OnEntry(ch, E.STARTED.(established := true)));
    events := Next(events, Launched(1, true));
    events := Next(events, OnEntry(ch, ENDED));
  }

  lemma CallbackFindsNothing(ch: Channel)
    ensures var r := OneConnection(ch, UNLISTED, UNASKED, map[1 := Opening(ch)], false);
            && ExitStep(r, 2, ch, true) ==
               OneConnection(ch, UNLISTED, UNASKED, map[1 := Opening(ch), 2 := Exiting(ch)], true)
            && ExitClaimStep(ExitStep(r, 2, ch, true), 2) ==
               OneConnection(ch, UNLISTED, UNASKED, map[1 := Opening(ch)], true)
  {
    assert map[1 := Opening(ch), 2 := Exiting(ch)] - {2} == map[1 := Opening(ch)];
  }

  lemma LookFindsTheExit(ch: Channel)
    ensures PublishStep(OneConnection(ch, UNLISTED, UNASKED, map[1 := Publishing(ch)], true), 1, ch) ==
            OneConnection(ch, Listed(ch), UNASKED, map[1 := CheckingExit(ch)], true)
    ensures var ended := Write(UNASKED, ch, EndRetroactive);
            Finish(OneConnection(ch, Listed(ch), ended, map[1 := EndingExit(ch)], true), 1) == Dead(ch)
  {
    assert Write(UNASKED, ch, EndRetroactive).attempts == map[ch := [] + [EndRetroactive]];
    assert [] + [EndRetroactive] == [EndRetroactive];
  }

  /** The exit callback runs before publication and finds nothing to claim. */
  lemma CalledBack(ch: Channel) returns (events: seq<Event>)
    ensures Possible(EMPTY, events)
    ensures Run(EMPTY, events) == OneConnection(ch, UNLISTED, UNASKED, map[1 := Opening(ch)], true)
  {
    CallbackFindsNothing(ch);
    events := Opened(ch);
    events := Next(events, Exit(2, ch, true));
    events := Next(events, ExitClaim(2));
  }

  lemma PublishedDead(before: seq<Event>, ch: Channel) returns (events: seq<Event>)
    requires Possible(EMPTY, before)
    requires Run(EMPTY, before) == OneConnection(ch, UNLISTED, UNASKED, map[1 := Opening(ch)], true)
    ensures Possible(EMPTY, events)
    ensures Run(EMPTY, events) == OneConnection(ch, Listed(ch), UNASKED, map[1 := CheckingExit(ch)], true)
  {
    LookFindsTheExit(ch);
    events := Next(before, RunOpened(1, true));
    events := Next(events, Publish(1));
  }

  lemma EndedDead(before: seq<Event>, ch: Channel) returns (events: seq<Event>)
    requires Possible(EMPTY, before)
    requires Run(EMPTY, before) == OneConnection(ch, Listed(ch), UNASKED, map[1 := CheckingExit(ch)], true)
    ensures Possible(EMPTY, events) && Run(EMPTY, events) == Dead(ch)
  {
    LookFindsTheExit(ch);
    events := Next(before, CheckExit(1));
    events := Next(events, EndRetro(1));
  }

  lemma DeadIsReached(ch: Channel) returns (events: seq<Event>)
    ensures Possible(EMPTY, events) && Run(EMPTY, events) == Dead(ch)
  {
    events := CalledBack(ch);
    events := PublishedDead(events, ch);
    events := EndedDead(events, ch);
  }

  /** A registered connection is what every later `acquire` of its pair returns: nothing is created. */
  lemma RegisteredIsHandedOut(r: Registry, ch: Channel, t: nat, other: Channel)
    requires RosterInv(r.roster) && Registered(r.roster, ch) && other.pair == ch.pair && Enabled(r, Acquire(t, other))
    ensures Step(r, Acquire(t, other)) == r && r.roster.byPair[other.pair] == ch
  {
  }

  /** The Agent of a connection exits before it is published. When nothing is left to do, its failure is recorded and it
    * is still registered, so that every later `acquire` of the pair returns it. */
  lemma DeadConnectionStaysRegistered(ch: Channel)
    ensures exists events :: && Possible(EMPTY, events) && Run(EMPTY, events).threads == map[]
                             && Registered(Run(EMPTY, events).roster, ch)
                             && ch in Run(EMPTY, events).runs.recorded
                             && Run(EMPTY, events).runs.recorded[ch] == EndRetroactive
  {
    var events := DeadIsReached(ch);
    assert Run(EMPTY, events) == Dead(ch);
  }

  // ----- and its release -----

  const RECEIPT := E.Reply(true, Some(E.Report(true)), None, E.Report(true))

  /** Thread 3 has written the close and waits; then the entry confirms it. */
  const ASKED_TO_CLOSE := E.BeginReleaseStep(ENDED, 3, true).0

  const CLOSED := E.AnsweredStep(ASKED_TO_CLOSE, 0, RECEIPT)

  lemma ReceiptComes()
    ensures E.BeginReleaseStep(ENDED, 3, true).1.None? && ASKED_TO_CLOSE.holder == Some(E.Releasing(3))
    ensures MovesItself(ASKED_TO_CLOSE, CLOSED) && CLOSED.holder == Some(E.Releasing(3))
    ensures E.EndReleaseStep(CLOSED).1 == Some(E.Outcome(true, E.Released))
  {
    var event := E.Answered(0, RECEIPT);
    assert OwnEvent(event) && E.Enabled(ASKED_TO_CLOSE, event) && CLOSED == E.Step(ASKED_TO_CLOSE, event).0;
    assert ASKED_TO_CLOSE.control == {0} && CLOSED.answers[0] == Some(RECEIPT);
  }

  /** The dead connection while thread 3 waits for its close. */
  function Waiting(ch: Channel, e: E.Entry): Registry {
    Dead(ch).(threads := map[3 := Awaiting(ch, "released", false)], entries := map[ch := e])
  }

  lemma ReleaseAsks(before: seq<Event>, ch: Channel) returns (events: seq<Event>)
    requires Possible(EMPTY, before) && Run(EMPTY, before) == Dead(ch) && ch.receipt
    ensures Possible(EMPTY, events) && Run(EMPTY, events) == Waiting(ch, ASKED_TO_CLOSE)
  {
    ReceiptComes();
    events := Next(before, Release(3, ch.id, "released", false));
    events := Next(events, Ask(3, true));
  }

  /** The client asks to release a connection like this one, and its entry gives the receipt. */
  lemma ReleaseConfirmed(before: seq<Event>, ch: Channel) returns (events: seq<Event>)
    requires Possible(EMPTY, before) && Run(EMPTY, before) == Waiting(ch, ASKED_TO_CLOSE)
    ensures Possible(EMPTY, events)
    ensures var r := Run(EMPTY, events);
            && r.roster == Listed(ch) && r.runs == Failed(ch)
            && r.threads == map[3 := Claiming(ch, "released", false)]
  {
    ReceiptComes();
    events := Next(before, OnEntry(ch, CLOSED));
    assert Run(EMPTY, events) == Waiting(ch, CLOSED);
    events := Next(events, AskDone(3));
  }

  lemma ReleaseAsksAgain(before: seq<Event>, ch: Channel) returns (events: seq<Event>)
    requires Possible(EMPTY, before)
    requires var r := Run(EMPTY, before);
             && r.roster == Listed(ch) && r.runs == Failed(ch)
             && r.threads == map[3 := Claiming(ch, "released", false)]
    ensures Possible(EMPTY, events)
    ensures var r := Run(EMPTY, events);
            && Answer(ch, true) in r.answers && r.runs.recorded == map[ch := EndRetroactive]
            && Attempts(r.runs, ch) == [EndRetroactive, EndReleased("released")]
  {
    events := Next(before, TakeClaim(3));
    events := Next(events, Settle(3));
    assert Attempts(Run(EMPTY, events).runs, ch) == [EndRetroactive] + [EndReleased("released")];
  }

  /** A release of the dead connection is confirmed by the entry's receipt and answered `released: True` with the
    * release as its end reason; the ledger is asked a second time and keeps the failure. */
  lemma ReleaseOfTheDeadAsksTwice(ch: Channel)
    requires ch.receipt
    ensures exists events :: && Possible(EMPTY, events)
                             && Answer(ch, true) in Run(EMPTY, events).answers
                             && Attempts(Run(EMPTY, events).runs, ch) == [EndRetroactive, EndReleased("released")]
                             && Run(EMPTY, events).runs.recorded == map[ch := EndRetroactive]
  {
    var events := DeadIsReached(ch);
    events := ReleaseAsks(events, ch);
    events := ReleaseConfirmed(events, ch);
    events := ReleaseAsksAgain(events, ch);
  }

  // ----- the exit callback that asks again -----

  lemma OpenedAlive(ch: Channel) returns (events: seq<Event>)
    ensures Possible(EMPTY, events)
    ensures Run(EMPTY, events) == OneConnection(ch, Listed(ch), UNASKED, map[1 := CheckingExit(ch)], false)
  {
    events := Opened(ch);
    events := Next(events, RunOpened(1, true));
    events := Next(events, Publish(1));
  }

  /** The callback has set the exit code and stands before the lock. */
  lemma CallbackStands(before: seq<Event>, ch: Channel) returns (events: seq<Event>)
    requires Possible(EMPTY, before)
    requires Run(EMPTY, before) == OneConnection(ch, Listed(ch), UNASKED, map[1 := CheckingExit(ch)], false)
    ensures Possible(EMPTY, events)
    ensures Run(EMPTY, events) ==
            OneConnection(ch, Listed(ch), UNASKED, map[1 := CheckingExit(ch), 2 := Exiting(ch)], true)
  {
    events := Next(before, Exit(2, ch, true));
  }

  lemma RetroWritten(ch: Channel)
    ensures Finish(OneConnection(ch, Listed(ch), Write(UNASKED, ch, EndRetroactive),
                                 map[1 := EndingExit(ch), 2 := Exiting(ch)], true), 1) ==
            OneConnection(ch, Listed(ch), Failed(ch), map[2 := Exiting(ch)], true)
  {
    assert Write(UNASKED, ch, EndRetroactive).attempts == map[ch := [] + [EndRetroactive]];
    assert [] + [EndRetroactive] == [EndRetroactive];
    assert map[1 := EndingExit(ch), 2 := Exiting(ch)] - {1} == map[2 := Exiting(ch)];
  }

  /** And the look finds it. */
  lemma BothSeeTheExit(before: seq<Event>, ch: Channel) returns (events: seq<Event>)
    requires Possible(EMPTY, before)
    requires Run(EMPTY, before) ==
             OneConnection(ch, Listed(ch), UNASKED, map[1 := CheckingExit(ch), 2 := Exiting(ch)], true)
    ensures Possible(EMPTY, events)
    ensures Run(EMPTY, events) == OneConnection(ch, Listed(ch), Failed(ch), map[2 := Exiting(ch)], true)
  {
    events := Next(before, CheckExit(1));
    events := Next(events, EndRetro(1));
    RetroWritten(ch);
  }

  lemma CallbackAsksAgain(before: seq<Event>, ch: Channel) returns (events: seq<Event>)
    requires Possible(EMPTY, before)
    requires var r := Run(EMPTY, before);
             && r.roster == Listed(ch) && r.runs == Failed(ch) && r.threads == map[2 := Exiting(ch)]
    ensures Possible(EMPTY, events)
    ensures Attempts(Run(EMPTY, events).runs, ch) == [EndRetroactive, EndExited]
  {
    events := Next(before, ExitClaim(2));
    events := Next(events, ExitSettle(2));
    assert Attempts(Run(EMPTY, events).runs, ch) == [EndRetroactive] + [EndExited];
  }

  /** The Agent exits between publication and the look: `acquire` and the exit callback both ask the ledger. */
  lemma RetroactiveEndAsksTwice(ch: Channel)
    ensures exists events :: Possible(EMPTY, events)
                             && Attempts(Run(EMPTY, events).runs, ch) == [EndRetroactive, EndExited]
  {
    var events := OpenedAlive(ch);
    events := CallbackStands(events, ch);
    events := BothSeeTheExit(events, ch);
    events := CallbackAsksAgain(events, ch);
  }
}
