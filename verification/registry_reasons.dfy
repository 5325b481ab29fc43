/** Why a run ended: the ending the ledger is asked for is that of the call which took the connection out. */
module RegistryReasons {
  import opened Wrappers
  import opened RegistryProtocol
  import opened RegistryEndings
  import opened RegistryLedger
  import E = EntryProtocol

  // ----- calls -----

  predicate Begins(v: Event) {
    v.Acquire? || v.Release? || v.Exit?
  }

  /** The call a thread is in, or was in last. */
  function CallOf(events: seq<Event>, t: nat): Option<Event> {
    if events == [] then None
    else
      var v := events[|events| - 1];
      if Begins(v) && v.thread == t then Some(v) else CallOf(events[..|events| - 1], t)
  }

  /** A thread in a release stands there for the connection, the reason and the insistence of its call; one in an exit
    * callback for its connection. */
  ghost predicate TrueToItsCall(thread: Thread, call: Option<Event>) {
    match thread
    case Asking(ch, reason, stopping) => ByRelease(call, ch, reason) && call.value.stopping == stopping
    case Awaiting(ch, reason, stopping) => ByRelease(call, ch, reason) && call.value.stopping == stopping
    case Forcing(ch, reason) => ByRelease(call, ch, reason) && call.value.stopping
    case Claiming(ch, reason, forced) => ByRelease(call, ch, reason) && (forced ==> call.value.stopping)
    case Settling(ch, reason, forced) => ByRelease(call, ch, reason) && (forced ==> call.value.stopping)
    case Exiting(ch) => ByExit(call, ch)
    case Failing(ch) => ByExit(call, ch)
    case _ => true
  }

  predicate ByRelease(call: Option<Event>, ch: Channel, reason: string) {
    call.Some? && call.value.Release? && call.value.id == ch.id && call.value.reason == reason
  }

  predicate ByExit(call: Option<Event>, ch: Channel) {
    call.Some? && call.value.Exit? && call.value.ch == ch
  }

  ghost predicate CallsKept(events: seq<Event>, threads: map<nat, Thread>) {
    forall t <- threads :: TrueToItsCall(threads[t], CallOf(events, t))
  }

  lemma CallOfMore(events: seq<Event>, v: Event, t: nat)
    ensures CallOf(events + [v], t) == if Begins(v) && v.thread == t then Some(v) else CallOf(events, t)
  {
    assert (events + [v])[..|events|] == events;
  }

  lemma AskingKeepsCall(r: Registry, v: Event, call: Option<Event>)
    requires Asks(v) && Enabled(r, v) && TrueToItsCall(r.threads[v.thread], call)
    ensures v.thread in Step(r, v).threads ==> TrueToItsCall(Step(r, v).threads[v.thread], call)
  {
    var thread := r.threads[v.thread];
    if v.Ask? {
      if thread.ch.receipt {
        OutcomeKeepsCall(r, v.thread, thread, E.BeginReleaseStep(r.entries[thread.ch], v.thread, v.sent).1, call);
      }
    } else {
      OutcomeKeepsCall(r, v.thread, thread, E.EndReleaseStep(r.entries[thread.ch]).1, call);
    }
  }

  lemma OutcomeKeepsCall(r: Registry, t: nat, thread: Thread, outcome: Option<E.Outcome>, call: Option<Event>)
    requires (thread.Asking? || thread.Awaiting?) && TrueToItsCall(thread, call)
    ensures forall d: Registry :: d.threads == r.threads && t in OutcomeStep(d, t, thread, outcome).threads ==>
              TrueToItsCall(OutcomeStep(d, t, thread, outcome).threads[t], call)
  {
  }

  lemma ClaimingKeepsCall(r: Registry, v: Event, call: Option<Event>)
    requires Takes(v) && Enabled(r, v) && TrueToItsCall(r.threads[v.thread], call)
    ensures v.thread in Step(r, v).threads ==> TrueToItsCall(Step(r, v).threads[v.thread], call)
  {
  }

  lemma OthersKeepCall(r: Registry, v: Event, call: Option<Event>)
    requires Enabled(r, v) && !v.OnEntry? && !Asks(v) && !Takes(v) && !Begins(v)
    requires TrueToItsCall(r.threads[v.thread], call)
    ensures v.thread in Step(r, v).threads ==> TrueToItsCall(Step(r, v).threads[v.thread], call)
  {
  }

  lemma BeginningKeepsCall(r: Registry, v: Event)
    requires RosterInv(r.roster) && Enabled(r, v) && Begins(v) && v.thread in Step(r, v).threads
    ensures TrueToItsCall(Step(r, v).threads[v.thread], Some(v))
  {
  }

  lemma StepKeepsCalls(events: seq<Event>, r: Registry, v: Event)
    requires RosterInv(r.roster) && Enabled(r, v) && CallsKept(events, r.threads)
    ensures CallsKept(events + [v], Step(r, v).threads)
  {
    var d := Step(r, v);
    forall t <- d.threads ensures TrueToItsCall(d.threads[t], CallOf(events + [v], t)) {
      CallOfMore(events, v, t);
      if v.OnEntry? || v.thread != t {
        OnlyNewThreads(r, v, t);
      } else if Begins(v) {
        BeginningKeepsCall(r, v);
      } else if Asks(v) {
        AskingKeepsCall(r, v, CallOf(events, t));
      } else if Takes(v) {
        ClaimingKeepsCall(r, v, CallOf(events, t));
      } else {
        OthersKeepCall(r, v, CallOf(events, t));
      }
    }
  }

  lemma {:induction false} CallsAreKept(events: seq<Event>)
    requires Possible(EMPTY, events)
    ensures CallsKept(events, Run(EMPTY, events).threads) && Live(Run(EMPTY, events))
  {
    LiveRun(events);
    if events != [] {
      var init, v := events[..|events| - 1], events[|events| - 1];
      CallsAreKept(init);
      StepKeepsCalls(init, Run(EMPTY, init), v);
      assert events == init + [v];
    }
  }

  // ----- the call that took a connection out -----

  /** The step takes the connection out of both maps. */
  ghost predicate TakesOut(r: Registry, v: Event, ch: Channel) {
    Takes(v) && v.thread in r.threads && r.threads[v.thread].ch == ch && Registered(r.roster, ch)
  }

  ghost function TakenBy(events: seq<Event>, ch: Channel): Option<Event>
    requires Possible(EMPTY, events)
  {
    if events == [] then None
    else
      var init, v := events[..|events| - 1], events[|events| - 1];
      if TakenBy(init, ch).Some? then TakenBy(init, ch)
      else if TakesOut(Run(EMPTY, init), v, ch) then CallOf(init, v.thread)
      else None
  }

  /** What the ledger is asked for by a call that took a connection out. */
  function EndingOf(call: Event): Option<Ending> {
    match call
    case Release(_, _, reason, _) => Some(EndReleased(reason))
    case Exit(_, _, _) => Some(EndExited)
    case _ => None
  }

  predicate ByClaim(ending: Ending) {
    ending.EndReleased? || ending.EndExited?
  }

  predicate Names(call: Option<Event>, ch: Channel) {
    call.Some? && ((call.value.Release? && call.value.id == ch.id) || (call.value.Exit? && call.value.ch == ch))
  }

  ghost predicate Reasoned(events: seq<Event>, r: Registry, taken: Option<Event>, ch: Channel) {
    && (ch in r.roster.claimant <==> taken.Some?)
    && (taken.Some? ==> Names(taken, ch))
    && (ch in r.roster.claimant && ch !in r.runs.settled ==> CallOf(events, r.roster.claimant[ch]) == taken)
    && (forall ending <- Attempts(r.runs, ch) ::
          ByClaim(ending) ==> taken.Some? && Some(ending) == EndingOf(taken.value))
  }

  lemma ClaimThreadNamesIt(r: Registry, v: Event, call: Option<Event>)
    requires Takes(v) && Enabled(r, v) && TrueToItsCall(r.threads[v.thread], call)
    ensures Names(call, r.threads[v.thread].ch)
  {
  }

  lemma TakenIfRegistered(r: Registry, v: Event, ch: Channel)
    requires Takes(v) && Enabled(r, v)
    ensures if TakesOut(r, v, ch) then Step(r, v).roster.claimant == r.roster.claimant[ch := v.thread]
            else ch in Step(r, v).roster.claimant <==> ch in r.roster.claimant
    ensures !TakesOut(r, v, ch) && ch in r.roster.claimant ==>
              Step(r, v).roster.claimant[ch] == r.roster.claimant[ch]
    ensures Step(r, v).runs == r.runs
  {
  }

  lemma TakingKeepsReasons(events: seq<Event>, r: Registry, v: Event, taken: Option<Event>, ch: Channel)
    requires Enabled(r, v) && Takes(v) && CallsKept(events, r.threads) && Reasoned(events, r, taken, ch)
    requires Registered(r.roster, ch) ==> ch !in r.roster.claimant
    ensures Reasoned(events + [v], Step(r, v),
                     if taken.None? && TakesOut(r, v, ch) then CallOf(events, v.thread) else taken, ch)
  {
    TakenIfRegistered(r, v, ch);
    ClaimThreadNamesIt(r, v, CallOf(events, v.thread));
    CallOfMore(events, v, v.thread);
    if ch in r.roster.claimant { CallOfMore(events, v, r.roster.claimant[ch]); }
  }

  /** The call a thread is about to make to the ledger for a claim of its own. */
  lemma OwnClaim(events: seq<Event>, r: Registry, v: Event, taken: Option<Event>)
    requires Enabled(r, v) && (v.Settle? || v.ExitSettle?) && ThreadInv(r, v.thread, r.threads[v.thread])
    requires TrueToItsCall(r.threads[v.thread], CallOf(events, v.thread))
    requires Reasoned(events, r, taken, r.threads[v.thread].ch)
    ensures var ch := r.threads[v.thread].ch;
            && taken.Some? && ch in r.roster.claimant
            && EndingOf(taken.value) == Some(if v.Settle? then EndReleased(r.threads[v.thread].reason) else EndExited)
  {
  }

  lemma AttemptsAfterWrite(r: Registry, v: Event, ch: Channel)
    requires Enabled(r, v) && Writes(v)
    ensures var before, after := Attempts(r.runs, ch), Attempts(Step(r, v).runs, ch);
            if r.threads[v.thread].ch != ch then after == before
            else after == before + [match v
                                    case EndLoser(_) => EndSuperseded
                                    case EndRetro(_) => EndRetroactive
                                    case Settle(t) => EndReleased(r.threads[t].reason)
                                    case _ => EndExited]
  {
  }

  lemma WritingKeepsReasons(events: seq<Event>, r: Registry, v: Event, taken: Option<Event>, ch: Channel)
    requires Enabled(r, v) && Writes(v) && CallsKept(events, r.threads) && Reasoned(events, r, taken, ch)
    requires ThreadInv(r, v.thread, r.threads[v.thread])
    ensures Reasoned(events + [v], Step(r, v), taken, ch)
  {
    WriteMoves(r, v);
    AttemptsAfterWrite(r, v, ch);
    if ch in r.roster.claimant { CallOfMore(events, v, r.roster.claimant[ch]); }
    if r.threads[v.thread].ch == ch && (v.Settle? || v.ExitSettle?) { OwnClaim(events, r, v, taken); }
  }

  lemma OthersKeepReasons(events: seq<Event>, r: Registry, v: Event, taken: Option<Event>, ch: Channel)
    requires Enabled(r, v) && !Takes(v) && !Writes(v) && Reasoned(events, r, taken, ch) && ClaimsUnderWay(r)
    ensures Reasoned(events + [v], Step(r, v), taken, ch)
  {
    Moves(r, v);
    if ch in r.roster.claimant && ch !in r.runs.settled {
      assert UnderWay(r.threads, r.roster.claimant[ch], ch);
      CallOfMore(events, v, r.roster.claimant[ch]);
    }
  }

  lemma ClaimFacts(events: seq<Event>, v: Event, ch: Channel)
    requires Possible(EMPTY, events) && Enabled(Run(EMPTY, events), v)
    ensures var r := Run(EMPTY, events);
            && CallsKept(events, r.threads) && ClaimsUnderWay(r)
            && (Registered(r.roster, ch) ==> ch !in r.roster.claimant)
            && (Writes(v) ==> ThreadInv(r, v.thread, r.threads[v.thread]))
  {
    CallsAreKept(events);
  }

  lemma {:induction false} ReasonsAreKept(events: seq<Event>, ch: Channel)
    requires Possible(EMPTY, events)
    ensures Reasoned(events, Run(EMPTY, events), TakenBy(events, ch), ch)
  {
    if events == [] { return; }
    var init, v := events[..|events| - 1], events[|events| - 1];
    ReasonsAreKept(init, ch);
    ClaimFacts(init, v, ch);
    var r := Run(EMPTY, init);
    assert events == init + [v];
    if Takes(v) { TakingKeepsReasons(init, r, v, TakenBy(init, ch), ch); }
    else if Writes(v) { WritingKeepsReasons(init, r, v, TakenBy(init, ch), ch); }
    else { OthersKeepReasons(init, r, v, TakenBy(init, ch), ch); }
  }

  /** Over every run: whatever ending a claim asked the ledger for is that of the call that took the connection out, a
    * release of its id with the very reason it was called with, or its exit callback. */
  lemma EndingIsThatOfTheCall(events: seq<Event>, ch: Channel, ending: Ending)
    requires Possible(EMPTY, events) && ending in Attempts(Run(EMPTY, events).runs, ch)
    requires ending.EndReleased? || ending.EndExited?
    ensures TakenBy(events, ch).Some?
    ensures match TakenBy(events, ch).value
            case Release(_, id, reason, _) => id == ch.id && ending == EndReleased(reason)
            case Exit(_, c, _) => c == ch && ending == EndExited
            case _ => false
  {
    ReasonsAreKept(events, ch);
  }

  /** The recorded ending of a connection that was taken out, once no thread is busy with it: that of the call that
    * took it out, unless `acquire` found its exit code; then it can be the retroactive one instead. */
  lemma RecordedForItsReason(events: seq<Event>, ch: Channel)
    requires Possible(EMPTY, events) && NoThreadLeft(Run(EMPTY, events), ch)
    requires ch in Run(EMPTY, events).roster.claimant
    ensures TakenBy(events, ch).Some? && ch in Run(EMPTY, events).runs.recorded
    ensures var recorded := Run(EMPTY, events).runs.recorded[ch];
            match TakenBy(events, ch).value
            case Release(_, id, reason, _) =>
              id == ch.id && (recorded == EndReleased(reason) || (SawExit(events, ch) && recorded == EndRetroactive))
            case Exit(_, c, _) =>
              c == ch && (recorded == EndExited || (SawExit(events, ch) && recorded == EndRetroactive))
            case _ => false
  {
    LiveRun(events);
    ReasonsAreKept(events, ch);
    EveryRunEndsOnce(events, ch);
    GuardDecides(events, ch);
    var r := Run(EMPTY, events);
    assert AttemptsInv(r.roster, r.runs, ch);
    OnlyClaimsAndRetros(Attempts(r.runs, ch));
  }

  lemma {:induction false} OnlyClaimsAndRetros(endings: seq<Ending>)
    requires |endings| == Claims(endings) + Retros(endings)
    ensures Retros(endings) <= |endings|
    ensures forall ending <- endings :: ByClaim(ending) || (ending.EndRetroactive? && Retros(endings) > 0)
  {
    if endings == [] { return; }
    var init, last := endings[..|endings| - 1], endings[|endings| - 1];
    CountsAreBounded(init);
    OnlyClaimsAndRetros(init);
    assert endings == init + [last];
  }

  lemma {:induction false} CountsAreBounded(endings: seq<Ending>)
    ensures Claims(endings) + Retros(endings) <= |endings|
  {
    if endings != [] { CountsAreBounded(endings[..|endings| - 1]); }
  }

  /** A run that a server stop took out is recorded as such, unless `acquire` found its exit code. */
  lemma ServerStopIsRecorded(events: seq<Event>, ch: Channel)
    requires Possible(EMPTY, events) && NoThreadLeft(Run(EMPTY, events), ch) && !SawExit(events, ch)
    requires ch in Run(EMPTY, events).roster.claimant
    requires var call := TakenBy(events, ch); call.Some? && call.value.Release? && call.value.reason == "server-stop"
    ensures ch in Run(EMPTY, events).runs.recorded
    ensures Run(EMPTY, events).runs.recorded[ch] == EndReleased("server-stop")
  {
    RecordedForItsReason(events, ch);
  }

  // ----- only a server stop goes on without proof -----

  lemma EntryStaysBacked(r: Registry, v: Event, ch: Channel)
    requires EntriesInv(r) && Enabled(r, v) && Backed(r, ch)
    ensures Backed(Step(r, v), ch)
  {
    if v.Ask? {
      var c := r.threads[v.thread].ch;
      if c.receipt { E.EntryStepKeepsInv(r.entries[c], E.BeginRelease(v.thread, v.sent)); }
    } else if v.AskDone? {
      E.EntryStepKeepsInv(r.entries[r.threads[v.thread].ch], E.EndRelease(v.thread));
    } else if v.OnEntry? {
      MovesItselfKeeps(r.entries[v.ch], v.after);
    } else {
      OthersKeepExits(r, v, ch);
    }
  }

  /** A claim that does not come from a server stop is backed. */
  ghost predicate ProvenClaim(r: Registry, taken: Option<Event>, ch: Channel) {
    taken.Some? && taken.value.Release? && !taken.value.stopping ==> Backed(r, ch)
  }

  lemma ClaimerIsProven(r: Registry, v: Event, call: Option<Event>)
    requires Takes(v) && Enabled(r, v) && ThreadInv(r, v.thread, r.threads[v.thread])
    requires TrueToItsCall(r.threads[v.thread], call)
    ensures ProvenClaim(r, call, r.threads[v.thread].ch)
  {
  }

  lemma {:induction false} ClaimsAreProven(events: seq<Event>, ch: Channel)
    requires Possible(EMPTY, events)
    ensures ProvenClaim(Run(EMPTY, events), TakenBy(events, ch), ch) && Inv(Run(EMPTY, events))
  {
    EmptyInv();
    RunKeepsInv(EMPTY, events);
    if events == [] { return; }
    var init, v := events[..|events| - 1], events[|events| - 1];
    ClaimsAreProven(init, ch);
    CallsAreKept(init);
    var r := Run(EMPTY, init);
    if TakenBy(init, ch).None? && TakesOut(r, v, ch) {
      assert ThreadInv(r, v.thread, r.threads[v.thread]);
      ClaimerIsProven(r, v, CallOf(init, v.thread));
    }
    if Backed(r, ch) { EntryStaysBacked(r, v, ch); }
  }

  /** A connection whose transport can be asked is taken out by a release only with the entry's receipt, unless the
    * release is a server stop: an unconfirmed outcome ends any other call. */
  lemma ReleaseTakesOnProof(events: seq<Event>, ch: Channel)
    requires Possible(EMPTY, events) && ch.receipt
    requires var call := TakenBy(events, ch); call.Some? && call.value.Release? && !call.value.stopping
    ensures ch in Run(EMPTY, events).entries && E.Proven(Run(EMPTY, events).entries[ch])
  {
    ClaimsAreProven(events, ch);
  }

  // ----- what callers are told -----

  /** A release call that is not forced to go on. */
  predicate Calling(r: Registry, t: nat) {
    t in r.threads &&
    (r.threads[t].Asking? || r.threads[t].Awaiting? ||
     (r.threads[t].Claiming? && !r.threads[t].forced) || (r.threads[t].Settling? && !r.threads[t].forced))
  }

  lemma AskingAnswers(r: Registry, v: Event)
    requires Enabled(r, v) && Asks(v)
    ensures Step(r, v).answers ==
            r.answers + if Calling(Step(r, v), v.thread) then {} else {Answer(r.threads[v.thread].ch, false)}
  {
  }

  lemma ClaimingAnswers(r: Registry, v: Event)
    requires Enabled(r, v) && (v.TakeClaim? || v.Settle?)
    ensures Step(r, v).answers ==
            r.answers + if Calling(r, v.thread) && !Calling(Step(r, v), v.thread)
                        then {Answer(r.threads[v.thread].ch, true)} else {}
  {
  }

  /** A call of `release` is answered once, by the step that ends it or lets a server stop go on: `released: True` if it
    * was past its confirmation, `released: False` if it still waited for it. Nothing else answers. */
  lemma EveryCallIsAnswered(r: Registry, v: Event)
    requires Enabled(r, v)
    ensures Step(r, v).answers ==
            r.answers + if !v.OnEntry? && Calling(r, v.thread) && !Calling(Step(r, v), v.thread)
                        then var call := r.threads[v.thread]; {Answer(call.ch, call.Claiming? || call.Settling?)}
                        else {}
  {
    if Asks(v) { AskingAnswers(r, v); } else if v.TakeClaim? || v.Settle? { ClaimingAnswers(r, v); }
  }

  // ----- what is registered was up -----

  /** `acquire` saw the transport of the connection launched. */
  ghost predicate WasLaunched(events: seq<Event>, ch: Channel)
    requires Possible(EMPTY, events)
  {
    events != [] &&
    (WasLaunched(events[..|events| - 1], ch) ||
     Passed(Run(EMPTY, events[..|events| - 1]), events[|events| - 1], Launching(ch)))
  }

  /** And its run opened. */
  ghost predicate WasOpened(events: seq<Event>, ch: Channel)
    requires Possible(EMPTY, events)
  {
    events != [] &&
    (WasOpened(events[..|events| - 1], ch) ||
     Passed(Run(EMPTY, events[..|events| - 1]), events[|events| - 1], Opening(ch)))
  }

  /** The success that takes a thread from where it stands. */
  ghost predicate Passed(r: Registry, v: Event, thread: Thread) {
    (v.Launched? || v.RunOpened?) && v.ok && v.thread in r.threads && r.threads[v.thread] == thread
  }

  ghost predicate UpFor(thread: Thread, up: bool, ran: bool) {
    match thread
    case Opening(_) => up
    case Publishing(_) => up && ran
    case _ => true
  }

  lemma UpStep(r: Registry, v: Event, ch: Channel, up: bool, ran: bool)
    requires Enabled(r, v) && !v.OnEntry? && v.thread in Step(r, v).threads && Step(r, v).threads[v.thread].ch == ch
    requires v.thread in r.threads && r.threads[v.thread].ch == ch ==> UpFor(r.threads[v.thread], up, ran)
    ensures UpFor(Step(r, v).threads[v.thread],
                  up || Passed(r, v, Launching(ch)), ran || Passed(r, v, Opening(ch)))
  {
  }

  lemma {:induction false} RegisteredWasUp(events: seq<Event>, ch: Channel)
    requires Possible(EMPTY, events)
    ensures forall t <- Run(EMPTY, events).threads :: Run(EMPTY, events).threads[t].ch == ch ==>
              UpFor(Run(EMPTY, events).threads[t], WasLaunched(events, ch), WasOpened(events, ch))
    ensures ch in Run(EMPTY, events).roster.published ==> WasLaunched(events, ch) && WasOpened(events, ch)
  {
    if events == [] { return; }
    var init, v := events[..|events| - 1], events[|events| - 1];
    RegisteredWasUp(init, ch);
    var r := Run(EMPTY, init);
    Moves(r, v);
    if LetsIn(v) { LetInMoves(r, v); }
    forall t <- Step(r, v).threads | Step(r, v).threads[t].ch == ch
      ensures UpFor(Step(r, v).threads[t], WasLaunched(events, ch), WasOpened(events, ch))
    {
      if v.OnEntry? || v.thread != t { OnlyNewThreads(r, v, t); }
      else { UpStep(r, v, ch, WasLaunched(init, ch), WasOpened(init, ch)); }
    }
  }

  // ----- exit codes -----

  ghost predicate CodedIn(events: seq<Event>, ch: Channel) {
    exists t: nat :: Exit(t, ch, true) in events
  }

  lemma CodesMove(r: Registry, v: Event, ch: Channel)
    requires Enabled(r, v)
    ensures ch in Step(r, v).exits.coded <==> if v.Exit? && v.ch == ch then v.coded else ch in r.exits.coded
  {
  }

  lemma CodedMore(events: seq<Event>, v: Event, ch: Channel)
    ensures CodedIn(events + [v], ch) <==> CodedIn(events, ch) || (v.Exit? && v.ch == ch && v.coded)
  {
    assert forall x :: x in events + [v] <==> x in events || x == v;
    if v.Exit? && v.ch == ch && v.coded { assert Exit(v.thread, ch, true) in events + [v]; }
  }

  lemma {:induction false} NoCodeWithoutCallback(events: seq<Event>, ch: Channel)
    requires CallbacksIn(events, ch) == 0
    ensures !CodedIn(events, ch)
  {
    if events != [] {
      NoCodeWithoutCallback(events[..|events| - 1], ch);
      CodedMore(events[..|events| - 1], events[|events| - 1], ch);
      assert events == events[..|events| - 1] + [events[|events| - 1]];
    }
  }

  /** What `acquire`'s look can find: an exit code stands there exactly if the connection's callback came with one. */
  lemma {:induction false} CodedExactly(events: seq<Event>, ch: Channel)
    requires Possible(EMPTY, events)
    ensures ch in Run(EMPTY, events).exits.coded <==> CodedIn(events, ch)
  {
    if events == [] { return; }
    var init, v := events[..|events| - 1], events[|events| - 1];
    CodedExactly(init, ch);
    CodesMove(Run(EMPTY, init), v, ch);
    CodedMore(init, v, ch);
    OneExitCallback(events, ch);
    if v.Exit? && v.ch == ch { NoCodeWithoutCallback(init, ch); }
    assert events == init + [v];
  }
}
