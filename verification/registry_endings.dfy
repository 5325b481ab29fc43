/** How often the registry asks the ledger to end a connection's run. The one read that decides it is `acquire`'s look
  * at the exit code after publication: for a connection whose look finds one it can ask twice, and for no other. */
module RegistryEndings {
  import opened Wrappers
  import opened RegistryProtocol
  import E = EntryProtocol

  // ----- runs, from the front -----

  lemma Extend(r: Registry, events: seq<Event>, v: Event)
    requires Possible(r, events) && Enabled(Run(r, events), v)
    ensures Possible(r, events + [v]) && Run(r, events + [v]) == Step(Run(r, events), v)
  {
    assert (events + [v])[..|events|] == events;
  }

  lemma {:induction false} Prepend(r: Registry, v: Event, events: seq<Event>)
    requires Enabled(r, v) && Possible(Step(r, v), events)
    ensures Possible(r, [v] + events) && Run(r, [v] + events) == Run(Step(r, v), events)
  {
    if events == [] {
      Extend(r, [], v);
      assert [v] + events == [] + [v];
    } else {
      var init, last := events[..|events| - 1], events[|events| - 1];
      assert [v] + events == [v] + init + [last];
      Prepend(r, v, init);
      Extend(r, [v] + init, last);
    }
  }

  lemma {:induction false} Append(r: Registry, a: seq<Event>, b: seq<Event>)
    requires Possible(r, a) && Possible(Run(r, a), b)
    ensures Possible(r, a + b) && Run(r, a + b) == Run(Run(r, a), b)
  {
    if b == [] {
      assert a + b == a;
    } else {
      var init, last := b[..|b| - 1], b[|b| - 1];
      assert a + b == a + init + [last];
      Append(r, a, init);
      Extend(r, a + init, last);
    }
  }

  // ----- the guard -----

  /** The step in which `acquire` finds the exit code of its own connection set. */
  ghost predicate FindsExit(r: Registry, v: Event, ch: Channel) {
    v.CheckExit? && v.thread in r.threads && r.threads[v.thread].ch == ch && ch in r.exits.coded
  }

  ghost predicate SawExit(events: seq<Event>, ch: Channel)
    requires Possible(EMPTY, events)
  {
    events != [] &&
    (SawExit(events[..|events| - 1], ch) || FindsExit(Run(EMPTY, events[..|events| - 1]), events[|events| - 1], ch))
  }

  ghost predicate EndsRetroactively(r: Registry, ch: Channel) {
    exists t <- r.threads :: r.threads[t] == EndingExit(ch)
  }

  /** The retroactive call is made or about to be made. */
  ghost predicate RetroDue(r: Registry, ch: Channel) {
    EndsRetroactively(r, ch) || Retros(Attempts(r.runs, ch)) == 1
  }

  ghost predicate NoRetro(r: Registry, ch: Channel) {
    !EndsRetroactively(r, ch) && Retros(Attempts(r.runs, ch)) == 0
  }

  lemma SettleCounts(runs: Runs, ch: Channel, ending: Ending, c: Channel)
    requires ending.EndReleased? || ending.EndExited?
    ensures Retros(Attempts(SettleRun(runs, ch, ending), c)) == Retros(Attempts(runs, c))
    ensures |Attempts(SettleRun(runs, ch, ending), c)| == |Attempts(runs, c)| + if c == ch then 1 else 0
  {
    WriteCounts(runs, ch, ending);
    assert Attempts(SettleRun(runs, ch, ending), c) == Attempts(Write(runs, ch, ending), c);
  }

  ghost predicate SameBut(before: map<nat, Thread>, after: map<nat, Thread>, t: nat) {
    forall u | u != t :: (u in after <==> u in before) && (u in before ==> after[u] == before[u])
  }

  predicate UnderWay(threads: map<nat, Thread>, t: nat, ch: Channel) {
    t in threads && threads[t].ch == ch && (threads[t].Settling? || threads[t].Failing?)
  }

  lemma AskMoves(r: Registry, v: Event)
    requires Asks(v) && Enabled(r, v)
    ensures SameBut(r.threads, Step(r, v).threads, v.thread)
    ensures Step(r, v).roster == r.roster && Step(r, v).runs == r.runs
  {
  }

  /** Whether the claim is won or not: the maps' history grows by the one claim at most, and its thread is under way. */
  ghost predicate TookAtMost(r: Registry, d: Registry, t: nat, ch: Channel) {
    && d.runs == r.runs && d.entries == r.entries && d.roster.published == r.roster.published
    && (d.roster.claimant == r.roster.claimant ||
        (d.roster.claimant == r.roster.claimant[ch := t] && UnderWay(d.threads, t, ch)))
  }

  lemma TakeClaimMoves(r: Registry, t: nat)
    requires t in r.threads && r.threads[t].Claiming?
    ensures SameBut(r.threads, TakeClaimStep(r, t).threads, t)
    ensures TookAtMost(r, TakeClaimStep(r, t), t, r.threads[t].ch)
  {
  }

  lemma ExitClaimMoves(r: Registry, t: nat)
    requires t in r.threads && r.threads[t].Exiting?
    ensures SameBut(r.threads, ExitClaimStep(r, t).threads, t)
    ensures TookAtMost(r, ExitClaimStep(r, t), t, r.threads[t].ch)
  {
  }

  lemma TakeMoves(r: Registry, v: Event)
    requires Takes(v) && Enabled(r, v)
    ensures SameBut(r.threads, Step(r, v).threads, v.thread)
    ensures TookAtMost(r, Step(r, v), v.thread, r.threads[v.thread].ch)
  {
    if v.TakeClaim? { TakeClaimMoves(r, v.thread); } else { ExitClaimMoves(r, v.thread); }
  }

  lemma WriteMoves(r: Registry, v: Event)
    requires Writes(v) && Enabled(r, v)
    ensures SameBut(r.threads, Step(r, v).threads, v.thread)
    ensures Step(r, v).roster == r.roster && Step(r, v).entries == r.entries
    ensures r.runs.settled <= Step(r, v).runs.settled
    ensures forall ch | ch != r.threads[v.thread].ch :: Attempts(Step(r, v).runs, ch) == Attempts(r.runs, ch)
  {
  }

  lemma LetInMoves(r: Registry, v: Event)
    requires LetsIn(v) && Enabled(r, v)
    ensures SameBut(r.threads, Step(r, v).threads, v.thread)
    ensures var d := Step(r, v);
            && d.runs == r.runs && d.roster.claimant == r.roster.claimant
            && r.roster.published <= d.roster.published
            && (forall ch <- d.roster.published ::
                  ch in r.roster.published || (v.Publish? && r.threads[v.thread].ch == ch))
            && (forall ch <- d.entries ::
                  (ch in r.entries && d.entries[ch] == r.entries[ch]) || d.entries[ch].holder.None?)
  {
  }

  lemma WalkMoves(r: Registry, v: Event)
    requires Walks(v) && Enabled(r, v)
    ensures SameBut(r.threads, Step(r, v).threads, v.thread)
    ensures Step(r, v).roster == r.roster && Step(r, v).runs == r.runs && Step(r, v).entries == r.entries
  {
  }

  lemma Moves(r: Registry, v: Event)
    requires Enabled(r, v)
    ensures v.OnEntry? ==> Step(r, v).threads == r.threads
    ensures !v.OnEntry? ==> SameBut(r.threads, Step(r, v).threads, v.thread)
    ensures r.roster.published <= Step(r, v).roster.published && r.runs.settled <= Step(r, v).runs.settled
    ensures !Takes(v) ==> Step(r, v).roster.claimant == r.roster.claimant
    ensures !LetsIn(v) ==> Step(r, v).roster.published == r.roster.published
    ensures !Writes(v) ==> Step(r, v).runs == r.runs
  {
    if Asks(v) { AskMoves(r, v); }
    else if Takes(v) { TakeMoves(r, v); }
    else if Writes(v) { WriteMoves(r, v); }
    else if LetsIn(v) { LetInMoves(r, v); }
    else if Walks(v) { WalkMoves(r, v); }
  }

  /** A thread stands where it stood unless the step is its own. */
  lemma OthersStay(r: Registry, v: Event, t: nat)
    requires Enabled(r, v) && t in r.threads && (v.OnEntry? || v.thread != t)
    ensures t in Step(r, v).threads && Step(r, v).threads[t] == r.threads[t]
  {
    Moves(r, v);
  }

  lemma OnlyNewThreads(r: Registry, v: Event, t: nat)
    requires Enabled(r, v) && t in Step(r, v).threads && (v.OnEntry? || v.thread != t)
    ensures t in r.threads && Step(r, v).threads[t] == r.threads[t]
  {
    Moves(r, v);
  }

  lemma RetrosMove(r: Registry, v: Event, ch: Channel)
    requires Writes(v) && Enabled(r, v)
    ensures Retros(Attempts(Step(r, v).runs, ch)) ==
            Retros(Attempts(r.runs, ch)) + if v.EndRetro? && r.threads[v.thread].ch == ch then 1 else 0
  {
    match v
    case EndLoser(t) => WriteCounts(r.runs, r.threads[t].ch, EndSuperseded);
    case EndRetro(t) => WriteCounts(r.runs, r.threads[t].ch, EndRetroactive);
    case Settle(t) => SettleCounts(r.runs, r.threads[t].ch, EndReleased(r.threads[t].reason), ch);
    case ExitSettle(t) => SettleCounts(r.runs, r.threads[t].ch, EndExited, ch);
  }

  lemma RetrosMoves(r: Registry, v: Event, ch: Channel)
    requires Enabled(r, v)
    ensures Retros(Attempts(Step(r, v).runs, ch)) ==
            Retros(Attempts(r.runs, ch)) + if v.EndRetro? && r.threads[v.thread].ch == ch then 1 else 0
  {
    if Writes(v) { RetrosMove(r, v, ch); } else { Moves(r, v); }
  }

  lemma RetroDueStays(r: Registry, v: Event, ch: Channel)
    requires Inv(r) && Enabled(r, v) && RetroDue(r, ch)
    ensures RetroDue(Step(r, v), ch)
  {
    RetrosMoves(r, v, ch);
    if EndsRetroactively(r, ch) {
      var t :| t in r.threads && r.threads[t] == EndingExit(ch);
      assert ThreadInv(r, t, r.threads[t]);
      if v.OnEntry? || v.thread != t { OthersStay(r, v, t); }
    } else if v.EndRetro? {
      assert ThreadInv(r, v.thread, r.threads[v.thread]);
    }
  }

  lemma RetroDueStarts(r: Registry, v: Event, ch: Channel)
    requires Enabled(r, v) && FindsExit(r, v, ch)
    ensures RetroDue(Step(r, v), ch)
  {
    assert v.thread in Step(r, v).threads && Step(r, v).threads[v.thread] == EndingExit(ch);
  }

  lemma NoRetroStays(r: Registry, v: Event, ch: Channel)
    requires Enabled(r, v) && NoRetro(r, ch) && !FindsExit(r, v, ch)
    ensures NoRetro(Step(r, v), ch)
  {
    RetrosMoves(r, v, ch);
    if EndsRetroactively(Step(r, v), ch) {
      var t :| t in Step(r, v).threads && Step(r, v).threads[t] == EndingExit(ch);
      if v.OnEntry? || v.thread != t { OnlyNewThreads(r, v, t); } else { EndingExitIsEntered(r, v, ch); }
    }
  }

  lemma EndingExitIsEntered(r: Registry, v: Event, ch: Channel)
    requires Enabled(r, v) && !v.OnEntry?
    requires v.thread in Step(r, v).threads && Step(r, v).threads[v.thread] == EndingExit(ch)
    ensures FindsExit(r, v, ch)
  {
  }

  lemma {:induction false} GuardDecides(events: seq<Event>, ch: Channel)
    requires Possible(EMPTY, events)
    ensures if SawExit(events, ch) then RetroDue(Run(EMPTY, events), ch) else NoRetro(Run(EMPTY, events), ch)
  {
    if events == [] { return; }
    var init, v := events[..|events| - 1], events[|events| - 1];
    GuardDecides(init, ch);
    EmptyInv();
    RunKeepsInv(EMPTY, init);
    var r := Run(EMPTY, init);
    if SawExit(init, ch) { RetroDueStays(r, v, ch); }
    else if FindsExit(r, v, ch) { RetroDueStarts(r, v, ch); }
    else { NoRetroStays(r, v, ch); }
  }

  // ----- claims and locks are always under way -----

  /** A claim that has not been written yet is in the hands of the thread that took it. */
  ghost predicate ClaimsUnderWay(r: Registry) {
    forall ch <- r.roster.claimant :: ch in r.runs.settled || UnderWay(r.threads, r.roster.claimant[ch], ch)
  }

  /** A release lock held by a `release` is held by a thread that waits for its close. */
  ghost predicate LocksHeld(r: Registry) {
    forall ch <- r.entries :: HeldByItsThread(r.threads, ch, r.entries[ch].holder)
  }

  predicate HeldByItsThread(threads: map<nat, Thread>, ch: Channel, holder: Option<E.Call>) {
    holder.Some? && holder.value.Releasing? ==>
      holder.value.thread in threads && threads[holder.value.thread].Awaiting? && threads[holder.value.thread].ch == ch
  }

  ghost predicate Live(r: Registry) {
    Inv(r) && ClaimsUnderWay(r) && LocksHeld(r)
  }

  lemma ClaimsMove(r: Registry, v: Event, ch: Channel)
    requires Enabled(r, v) && ch in Step(r, v).roster.claimant
    ensures r.runs.settled <= Step(r, v).runs.settled
    ensures (ch in r.roster.claimant && Step(r, v).roster.claimant[ch] == r.roster.claimant[ch]) ||
            UnderWay(Step(r, v).threads, Step(r, v).roster.claimant[ch], ch)
  {
    Moves(r, v);
    if Takes(v) { TakeMoves(r, v); }
  }

  lemma UnderWayWrites(r: Registry, t: nat, ch: Channel)
    requires UnderWay(r.threads, t, ch)
    ensures Enabled(r, Settle(t)) ==> ch in Step(r, Settle(t)).runs.settled
    ensures Enabled(r, ExitSettle(t)) ==> ch in Step(r, ExitSettle(t)).runs.settled
  {
  }

  lemma UnderWayStays(r: Registry, v: Event, t: nat, ch: Channel)
    requires Enabled(r, v) && UnderWay(r.threads, t, ch)
    ensures ch in Step(r, v).runs.settled || UnderWay(Step(r, v).threads, t, ch)
  {
    if v.OnEntry? || v.thread != t { OthersStay(r, v, t); } else { UnderWayWrites(r, t, ch); }
  }

  lemma ClaimsUnderWayStay(r: Registry, v: Event)
    requires Enabled(r, v) && ClaimsUnderWay(r)
    ensures ClaimsUnderWay(Step(r, v))
  {
    var d := Step(r, v);
    forall ch <- d.roster.claimant ensures ch in d.runs.settled || UnderWay(d.threads, d.roster.claimant[ch], ch) {
      ClaimsMove(r, v, ch);
      if !UnderWay(d.threads, d.roster.claimant[ch], ch) && ch !in r.runs.settled {
        UnderWayStays(r, v, r.roster.claimant[ch], ch);
      }
    }
  }

  /** The transport's own threads never take the lock for a `release`. */
  lemma OwnEventsTakeNoRelease(e: E.Entry, after: E.Entry)
    requires MovesItself(e, after)
    ensures TerminatesOrKeeps(e, after)
  {
    var event :| OwnEvent(event) && E.Enabled(e, event) && after == E.Step(e, event).0;
    OwnEventTakesNoRelease(e, event);
  }

  predicate TerminatesOrKeeps(e: E.Entry, after: E.Entry) {
    after.holder.None? || after.holder.value.Terminating? || after.holder == e.holder
  }

  lemma OwnEventTakesNoRelease(e: E.Entry, event: E.Event)
    requires OwnEvent(event) && E.Enabled(e, event)
    ensures TerminatesOrKeeps(e, E.Step(e, event).0)
  {
  }

  lemma AskLocks(r: Registry, v: Event, ch: Channel)
    requires Asks(v) && Enabled(r, v)
    ensures ch != r.threads[v.thread].ch ==>
              (ch in Step(r, v).entries <==> ch in r.entries) &&
              (ch in r.entries ==> Step(r, v).entries[ch] == r.entries[ch])
    ensures ch == r.threads[v.thread].ch ==>
              && ch in r.entries && ch in Step(r, v).entries
              && (v.AskDone? ==> Step(r, v).entries[ch].holder.None?)
              && (v.Ask? ==> Step(r, v).entries[ch].holder == r.entries[ch].holder ||
                             HeldByItsThread(Step(r, v).threads, ch, Step(r, v).entries[ch].holder))
  {
  }

  /** Who holds a lock after a step held it before, or waits now. */
  lemma LockMoves(r: Registry, v: Event, ch: Channel)
    requires Enabled(r, v) && ch in Step(r, v).entries
    ensures var h := Step(r, v).entries[ch].holder;
            || h.None? || h.value.Terminating?
            || HeldByItsThread(Step(r, v).threads, ch, h)
            || (ch in r.entries && h == r.entries[ch].holder && !(v.AskDone? && ch == r.threads[v.thread].ch))
  {
    if Asks(v) { AskLocks(r, v, ch); }
    else if v.OnEntry? { OwnEventsTakeNoRelease(r.entries[v.ch], v.after); }
    else if Takes(v) { TakeMoves(r, v); }
    else if Writes(v) { WriteMoves(r, v); }
    else if LetsIn(v) { LetInMoves(r, v); }
    else { WalkMoves(r, v); }
  }

  lemma LocksHeldStay(r: Registry, v: Event)
    requires Enabled(r, v) && LocksHeld(r)
    ensures LocksHeld(Step(r, v))
  {
    var d := Step(r, v);
    forall ch <- d.entries ensures HeldByItsThread(d.threads, ch, d.entries[ch].holder) {
      LockMoves(r, v, ch);
      var h := d.entries[ch].holder;
      if h.Some? && h.value.Releasing? && !HeldByItsThread(d.threads, ch, h) {
        assert HeldByItsThread(r.threads, ch, r.entries[ch].holder);
        WaitingStays(r, v, h.value.thread);
      }
    }
  }

  lemma WaitingStays(r: Registry, v: Event, t: nat)
    requires Enabled(r, v) && t in r.threads && r.threads[t].Awaiting? && !(v.AskDone? && v.thread == t)
    ensures t in Step(r, v).threads && Step(r, v).threads[t] == r.threads[t]
  {
    assert v.OnEntry? || v.thread != t;
    OthersStay(r, v, t);
  }

  lemma LiveStep(r: Registry, v: Event)
    requires Live(r) && Enabled(r, v)
    ensures Live(Step(r, v))
  {
    StepKeepsInv(r, v);
    ClaimsUnderWayStay(r, v);
    LocksHeldStay(r, v);
  }

  lemma {:induction false} LiveRun(events: seq<Event>)
    requires Possible(EMPTY, events)
    ensures Live(Run(EMPTY, events))
  {
    if events == [] {
      EmptyInv();
    } else {
      LiveRun(events[..|events| - 1]);
      LiveStep(Run(EMPTY, events[..|events| - 1]), events[|events| - 1]);
    }
  }

  // ----- how a run goes on once the guard was taken -----

  ghost predicate CanAskTwice(r: Registry, ch: Channel) {
    exists events :: Possible(r, events) && |Attempts(Run(r, events).runs, ch)| == 2
  }

  lemma GoesOn(r: Registry, v: Event, ch: Channel)
    requires Enabled(r, v) && CanAskTwice(Step(r, v), ch)
    ensures CanAskTwice(r, ch)
  {
    var events :| Possible(Step(r, v), events) && |Attempts(Run(Step(r, v), events).runs, ch)| == 2;
    Prepend(r, v, events);
  }

  ghost predicate Doomed(r: Registry, ch: Channel) {
    Live(r) && RetroDue(r, ch) && ch in r.roster.published
  }

  lemma DoomedStays(r: Registry, v: Event, ch: Channel)
    requires Doomed(r, ch) && Enabled(r, v)
    ensures Doomed(Step(r, v), ch)
  {
    LiveStep(r, v);
    RetroDueStays(r, v, ch);
    Moves(r, v);
  }

  lemma NowTwice(r: Registry, ch: Channel)
    requires |Attempts(r.runs, ch)| == 2
    ensures CanAskTwice(r, ch)
  {
    assert Possible(r, []) && Run(r, []) == r;
  }

  /** The claim is written: what is missing is at most the retroactive write. */
  lemma SettledAsksTwice(r: Registry, ch: Channel)
    requires Doomed(r, ch) && ch in r.runs.settled
    ensures CanAskTwice(r, ch)
  {
    assert AttemptsInv(r.roster, r.runs, ch);
    if Retros(Attempts(r.runs, ch)) == 1 {
      NowTwice(r, ch);
    } else {
      var t :| t in r.threads && r.threads[t] == EndingExit(ch);
      RetroWrites(r, t, ch);
      NowTwice(Step(r, EndRetro(t)), ch);
      GoesOn(r, EndRetro(t), ch);
    }
  }

  lemma RetroWrites(r: Registry, t: nat, ch: Channel)
    requires t in r.threads && r.threads[t] == EndingExit(ch)
    ensures Enabled(r, EndRetro(t))
    ensures |Attempts(Step(r, EndRetro(t)).runs, ch)| == |Attempts(r.runs, ch)| + 1
  {
    WriteCounts(r.runs, ch, EndRetroactive);
  }

  /** The claim is taken: its thread writes it. */
  lemma ClaimedAsksTwice(r: Registry, ch: Channel)
    requires Doomed(r, ch) && ch in r.roster.claimant
    ensures CanAskTwice(r, ch)
  {
    if ch in r.runs.settled {
      SettledAsksTwice(r, ch);
    } else {
      var t := r.roster.claimant[ch];
      assert UnderWay(r.threads, t, ch);
      var v := if r.threads[t].Settling? then Settle(t) else ExitSettle(t);
      WrittenClaim(r, t, ch, v);
      DoomedStays(r, v, ch);
      SettledAsksTwice(Step(r, v), ch);
      GoesOn(r, v, ch);
    }
  }

  lemma WrittenClaim(r: Registry, t: nat, ch: Channel, v: Event)
    requires UnderWay(r.threads, t, ch) && v == if r.threads[t].Settling? then Settle(t) else ExitSettle(t)
    ensures Enabled(r, v) && ch in Step(r, v).runs.settled
  {
  }

  /** A call is about to claim. */
  lemma ClaimingAsksTwice(r: Registry, t: nat, ch: Channel)
    requires Doomed(r, ch) && t in r.threads && r.threads[t].Claiming? && r.threads[t].ch == ch
    ensures CanAskTwice(r, ch)
  {
    if ch in r.roster.claimant {
      ClaimedAsksTwice(r, ch);
    } else {
      assert Registered(r.roster, ch);
      DoomedStays(r, TakeClaim(t), ch);
      ClaimedAsksTwice(Step(r, TakeClaim(t)), ch);
      GoesOn(r, TakeClaim(t), ch);
    }
  }

  predicate WillClaim(r: Registry, t: nat, ch: Channel) {
    t in r.threads && r.threads[t].ch == ch && (r.threads[t].Claiming? || r.threads[t].Forcing?)
  }

  /** A stopping call was answered: confirmed or not, it claims. */
  lemma AnsweredAsksTwice(r: Registry, t: nat, ch: Channel)
    requires Doomed(r, ch) && WillClaim(r, t, ch)
    ensures CanAskTwice(r, ch)
  {
    if r.threads[t].Claiming? {
      ClaimingAsksTwice(r, t, ch);
    } else {
      DoomedStays(r, Forced(t), ch);
      ClaimingAsksTwice(Step(r, Forced(t)), t, ch);
      GoesOn(r, Forced(t), ch);
    }
  }

  lemma WaitLeads(r: Registry, t: nat, ch: Channel)
    requires t in r.threads && r.threads[t].Awaiting? && r.threads[t].ch == ch && r.threads[t].stopping
    requires Enabled(r, AskDone(t))
    ensures WillClaim(Step(r, AskDone(t)), t, ch)
  {
  }

  lemma AskLeads(r: Registry, t: nat, ch: Channel)
    requires t in r.threads && r.threads[t].Asking? && r.threads[t].ch == ch && r.threads[t].stopping
    requires ch in r.entries && r.entries[ch].holder.None?
    ensures Enabled(r, Ask(t, false))
    ensures var d := Step(r, Ask(t, false));
            || WillClaim(d, t, ch)
            || (t in d.threads && d.threads[t].Awaiting? && d.threads[t].ch == ch && d.threads[t].stopping
                && Enabled(d, AskDone(t)))
  {
  }

  /** A stopping call waits: its wait may time out at any time. */
  lemma WaitingAsksTwice(r: Registry, t: nat, ch: Channel)
    requires Doomed(r, ch) && t in r.threads && r.threads[t].Awaiting? && r.threads[t].ch == ch && r.threads[t].stopping
    requires Enabled(r, AskDone(t))
    ensures CanAskTwice(r, ch)
  {
    DoomedStays(r, AskDone(t), ch);
    WaitLeads(r, t, ch);
    AnsweredAsksTwice(Step(r, AskDone(t)), t, ch);
    GoesOn(r, AskDone(t), ch);
  }

  /** A stopping call finds the lock free. */
  lemma AskingAsksTwice(r: Registry, t: nat, ch: Channel)
    requires Doomed(r, ch) && t in r.threads && r.threads[t].Asking? && r.threads[t].ch == ch && r.threads[t].stopping
    requires ch in r.entries && r.entries[ch].holder.None?
    ensures CanAskTwice(r, ch)
  {
    var v := Ask(t, false);
    AskLeads(r, t, ch);
    var d := Step(r, v);
    DoomedStays(r, v, ch);
    if WillClaim(d, t, ch) { AnsweredAsksTwice(d, t, ch); } else { WaitingAsksTwice(d, t, ch); }
    GoesOn(r, v, ch);
  }

  lemma FreshThread(threads: map<nat, Thread>) returns (t: nat)
    ensures t !in threads
  {
    t := Above(threads.Keys);
  }

  lemma Above(s: set<nat>) returns (n: nat)
    ensures forall x <- s :: x < n
  {
    if s == {} { return 0; }
    var x :| x in s;
    var m := Above(s - {x});
    n := if m > x then m else x + 1;
    forall y <- s ensures y < n { if y != x { assert y in s - {x}; } }
  }

  /** The connection is registered and its lock is free: a server stop claims it. */
  lemma UnlockedAsksTwice(r: Registry, ch: Channel)
    requires Doomed(r, ch) && Registered(r.roster, ch) && ch in r.entries && r.entries[ch].holder.None?
    ensures CanAskTwice(r, ch)
  {
    var t := FreshThread(r.threads);
    var v := Release(t, ch.id, "server-stop", true);
    DoomedStays(r, v, ch);
    AskingAsksTwice(Step(r, v), t, ch);
    GoesOn(r, v, ch);
  }

  /** Whoever holds the lock gives it back: its wait may end at any time. */
  lemma RegisteredAsksTwice(r: Registry, ch: Channel)
    requires Doomed(r, ch) && Registered(r.roster, ch)
    ensures CanAskTwice(r, ch)
  {
    assert ch in r.entries;
    var holder := r.entries[ch].holder;
    if holder.None? {
      UnlockedAsksTwice(r, ch);
    } else {
      assert HeldByItsThread(r.threads, ch, holder);
      var t := holder.value.thread;
      var v := if holder.value.Releasing? then AskDone(t) else OnEntry(ch, E.EndTerminateStep(r.entries[ch]));
      LockGivenBack(r, ch, v);
      DoomedStays(r, v, ch);
      UnlockedAsksTwice(Step(r, v), ch);
      GoesOn(r, v, ch);
    }
  }

  lemma LockGivenBack(r: Registry, ch: Channel, v: Event)
    requires ch in r.entries && r.entries[ch].holder.Some? && Registered(r.roster, ch)
    requires HeldByItsThread(r.threads, ch, r.entries[ch].holder)
    requires var h := r.entries[ch].holder.value;
             v == if h.Releasing? then AskDone(h.thread) else OnEntry(ch, E.EndTerminateStep(r.entries[ch]))
    ensures Enabled(r, v)
    ensures ch in Step(r, v).entries && Step(r, v).entries[ch].holder.None? && Registered(Step(r, v).roster, ch)
  {
    if v.OnEntry? { GivenBackByTerminate(r.entries[ch], r.entries[ch].holder.value.thread); }
  }

  lemma GivenBackByTerminate(e: E.Entry, t: nat)
    requires e.holder == Some(E.Terminating(t))
    ensures MovesItself(e, E.EndTerminateStep(e)) && E.EndTerminateStep(e).holder.None?
  {
    var event := E.EndTerminate(t);
    assert OwnEvent(event) && E.Enabled(e, event) && E.EndTerminateStep(e) == E.Step(e, event).0;
  }

  lemma DoomedAsksTwice(r: Registry, ch: Channel)
    requires Doomed(r, ch)
    ensures CanAskTwice(r, ch)
  {
    if ch in r.roster.claimant { ClaimedAsksTwice(r, ch); } else { RegisteredAsksTwice(r, ch); }
  }

  // ----- the results -----

  lemma DueMeansPublished(r: Registry, ch: Channel)
    requires Inv(r) && RetroDue(r, ch)
    ensures ch in r.roster.published
  {
    assert AttemptsInv(r.roster, r.runs, ch);
    assert Retros([EndSuperseded]) == 0 by { assert [EndSuperseded][..0] == []; }
    if EndsRetroactively(r, ch) {
      var t :| t in r.threads && r.threads[t] == EndingExit(ch);
      assert ThreadInv(r, t, r.threads[t]);
    }
  }

  /** As long as `acquire` finds no exit code, the ledger is asked at most once; once it finds one, the registry can
    * always still come to ask twice. */
  lemma AskedOnceExactly(events: seq<Event>, ch: Channel)
    requires Possible(EMPTY, events)
    ensures !SawExit(events, ch) ==> |Attempts(Run(EMPTY, events).runs, ch)| <= 1
    ensures SawExit(events, ch) ==>
              exists more :: Possible(EMPTY, events + more) && |Attempts(Run(EMPTY, events + more).runs, ch)| == 2
  {
    LiveRun(events);
    GuardDecides(events, ch);
    var r := Run(EMPTY, events);
    assert AttemptsInv(r.roster, r.runs, ch);
    if SawExit(events, ch) {
      DueMeansPublished(r, ch);
      DoomedAsksTwice(r, ch);
      var more :| Possible(r, more) && |Attempts(Run(r, more).runs, ch)| == 2;
      Append(EMPTY, events, more);
    }
  }

  ghost predicate NoThreadLeft(r: Registry, ch: Channel) {
    forall t <- r.threads :: r.threads[t].ch != ch
  }

  /** When a connection is out of the maps and no thread is busy with it, the guard alone says how often the ledger was
    * asked to end its run. */
  lemma AskedTwiceExactly(events: seq<Event>, ch: Channel)
    requires Possible(EMPTY, events)
    requires ch in Run(EMPTY, events).roster.claimant && NoThreadLeft(Run(EMPTY, events), ch)
    ensures |Attempts(Run(EMPTY, events).runs, ch)| == if SawExit(events, ch) then 2 else 1
  {
    LiveRun(events);
    GuardDecides(events, ch);
    var r := Run(EMPTY, events);
    assert AttemptsInv(r.roster, r.runs, ch);
    assert ch in r.runs.settled;
  }

  // ----- connections that lost the race -----

  /** The step in which `acquire` finds another connection of its pair registered. */
  predicate FindsWinner(r: Registry, v: Event, ch: Channel) {
    v.Publish? && v.thread in r.threads && r.threads[v.thread].ch == ch && ch.pair in r.roster.byPair
  }

  ghost predicate LostTheRace(events: seq<Event>, ch: Channel)
    requires Possible(EMPTY, events)
  {
    events != [] &&
    (LostTheRace(events[..|events| - 1], ch) ||
     FindsWinner(Run(EMPTY, events[..|events| - 1]), events[|events| - 1], ch))
  }

  ghost predicate EndsSuperseded(r: Registry, ch: Channel) {
    exists t <- r.threads :: r.threads[t] == Superseded(ch)
  }

  ghost predicate LossDue(r: Registry, ch: Channel) {
    ch !in r.roster.published && (EndsSuperseded(r, ch) || Attempts(r.runs, ch) == [EndSuperseded])
  }

  ghost predicate NoLoss(r: Registry, ch: Channel) {
    !EndsSuperseded(r, ch) && EndSuperseded !in Attempts(r.runs, ch)
  }

  lemma LossMoves(r: Registry, v: Event, ch: Channel)
    requires Enabled(r, v)
    ensures EndSuperseded in Attempts(Step(r, v).runs, ch) ==>
              EndSuperseded in Attempts(r.runs, ch) || EndsSuperseded(r, ch)
    ensures ch in Step(r, v).roster.published ==>
              ch in r.roster.published || (v.Publish? && r.threads[v.thread].ch == ch)
  {
    Moves(r, v);
    if Writes(v) {
      WriteMoves(r, v);
      if r.threads[v.thread].ch == ch { LossWrites(r, v, ch); }
    }
    if LetsIn(v) { LetInMoves(r, v); }
  }

  lemma LossWrites(r: Registry, v: Event, ch: Channel)
    requires Writes(v) && Enabled(r, v) && r.threads[v.thread].ch == ch
    ensures EndSuperseded in Attempts(Step(r, v).runs, ch) ==>
              EndSuperseded in Attempts(r.runs, ch) || EndsSuperseded(r, ch)
  {
    if v.EndLoser? { assert r.threads[v.thread] == Superseded(ch); }
  }

  lemma SupersededIsEntered(r: Registry, v: Event, ch: Channel)
    requires Enabled(r, v) && !v.OnEntry?
    requires v.thread in Step(r, v).threads && Step(r, v).threads[v.thread] == Superseded(ch)
    ensures FindsWinner(r, v, ch)
  {
  }

  lemma NoLossStays(r: Registry, v: Event, ch: Channel)
    requires Enabled(r, v) && NoLoss(r, ch) && !FindsWinner(r, v, ch)
    ensures NoLoss(Step(r, v), ch)
  {
    LossMoves(r, v, ch);
    if EndsSuperseded(Step(r, v), ch) {
      var t :| t in Step(r, v).threads && Step(r, v).threads[t] == Superseded(ch);
      if v.OnEntry? || v.thread != t { OnlyNewThreads(r, v, t); } else { SupersededIsEntered(r, v, ch); }
    }
  }

  lemma SupersededStays(r: Registry, v: Event, t: nat, ch: Channel)
    requires Inv(r) && Enabled(r, v)
    requires t in r.threads && r.threads[t] == Superseded(ch) && (v.OnEntry? || v.thread != t)
    ensures LossDue(Step(r, v), ch)
  {
    assert ThreadInv(r, t, r.threads[t]);
    OthersStay(r, v, t);
    LossMoves(r, v, ch);
    if v.Publish? { assert ThreadInv(r, v.thread, r.threads[v.thread]); }
  }

  lemma SupersededWrites(r: Registry, t: nat, ch: Channel)
    requires Inv(r) && t in r.threads && r.threads[t] == Superseded(ch)
    ensures LossDue(Step(r, EndLoser(t)), ch)
  {
    assert ThreadInv(r, t, r.threads[t]);
    assert Attempts(Step(r, EndLoser(t)).runs, ch) == [] + [EndSuperseded];
  }

  /** The loser's own thread keeps it out of the maps until its ending is written, and nothing else writes one. */
  lemma LossDueStays(r: Registry, v: Event, ch: Channel)
    requires Inv(r) && Enabled(r, v) && LossDue(r, ch)
    ensures LossDue(Step(r, v), ch)
  {
    if EndsSuperseded(r, ch) {
      var t :| t in r.threads && r.threads[t] == Superseded(ch);
      if v.OnEntry? || v.thread != t {
        SupersededStays(r, v, t, ch);
      } else {
        assert v == EndLoser(t);
        SupersededWrites(r, t, ch);
      }
    } else {
      NoThreadOfTheEnded(r, v, ch);
    }
  }

  lemma OnlyWritesChange(r: Registry, v: Event, ch: Channel)
    requires Enabled(r, v) && !(Writes(v) && r.threads[v.thread].ch == ch)
    ensures Attempts(Step(r, v).runs, ch) == Attempts(r.runs, ch)
  {
    if Writes(v) { WriteMoves(r, v); } else { Moves(r, v); }
  }

  /** No thread is left that could write or publish. */
  lemma NoWriterLeft(r: Registry, t: nat, ch: Channel)
    requires Inv(r) && t in r.threads && r.threads[t].ch == ch
    requires ch !in r.roster.published && Attempts(r.runs, ch) == [EndSuperseded]
    ensures var th := r.threads[t];
            !th.Superseded? && !th.EndingExit? && !th.Settling? && !th.Failing? && !th.Publishing?
  {
    assert ThreadInv(r, t, r.threads[t]);
  }

  lemma NoThreadOfTheEnded(r: Registry, v: Event, ch: Channel)
    requires Inv(r) && Enabled(r, v) && ch !in r.roster.published && Attempts(r.runs, ch) == [EndSuperseded]
    ensures ch !in Step(r, v).roster.published && Attempts(Step(r, v).runs, ch) == [EndSuperseded]
  {
    if !v.OnEntry? && v.thread in r.threads && r.threads[v.thread].ch == ch { NoWriterLeft(r, v.thread, ch); }
    OnlyWritesChange(r, v, ch);
    LossMoves(r, v, ch);
  }

  lemma LossDueStarts(r: Registry, v: Event, ch: Channel)
    requires Inv(r) && Enabled(r, v) && FindsWinner(r, v, ch)
    ensures LossDue(Step(r, v), ch)
  {
    assert ThreadInv(r, v.thread, r.threads[v.thread]);
    assert v.thread in Step(r, v).threads && Step(r, v).threads[v.thread] == Superseded(ch);
  }

  lemma {:induction false} RaceDecides(events: seq<Event>, ch: Channel)
    requires Possible(EMPTY, events)
    ensures if LostTheRace(events, ch) then LossDue(Run(EMPTY, events), ch) else NoLoss(Run(EMPTY, events), ch)
  {
    if events == [] { return; }
    var init, v := events[..|events| - 1], events[|events| - 1];
    RaceDecides(init, ch);
    LiveRun(init);
    var r := Run(EMPTY, init);
    if LostTheRace(init, ch) { LossDueStays(r, v, ch); }
    else if FindsWinner(r, v, ch) { LossDueStarts(r, v, ch); }
    else { NoLossStays(r, v, ch); }
  }

  /** A connection is never registered once its `acquire` found another of its pair, and as soon as no thread is busy
    * with it, the ledger was asked to end its run as superseded, once and for nothing else; for no other connection it
    * is asked that. */
  lemma SupersededEndsOnce(events: seq<Event>, ch: Channel)
    requires Possible(EMPTY, events)
    ensures EndSuperseded in Attempts(Run(EMPTY, events).runs, ch) ==> LostTheRace(events, ch)
    ensures LostTheRace(events, ch) ==> !Registered(Run(EMPTY, events).roster, ch)
    ensures LostTheRace(events, ch) ==> Attempts(Run(EMPTY, events).runs, ch) in {[], [EndSuperseded]}
    ensures LostTheRace(events, ch) && NoThreadLeft(Run(EMPTY, events), ch) ==>
              Attempts(Run(EMPTY, events).runs, ch) == [EndSuperseded]
  {
    LiveRun(events);
    RaceDecides(events, ch);
    assert AttemptsInv(Run(EMPTY, events).roster, Run(EMPTY, events).runs, ch);
  }
}
