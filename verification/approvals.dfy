/** Runs and the permission requests they own: an ask belongs to the run that was live when it
  * arrived, and only that run, while it is running, may ever accept the answer. */
module Approvals {
  import opened Wrappers

  datatype Status = Starting | Running | StopRequested | Completed | Cancelled | Failed | Unknown

  predicate Open(status: Status) {
    status.Starting? || status.Running? || status.StopRequested?
  }

  datatype Run = Run(id: nat, session: string, status: Status)
  datatype AskState = Pending | Resolved | Stranded
  datatype Ask = Ask(session: string, owner: Option<nat>, choices: set<string>, state: AskState)
  datatype Answer = Cancel | Choice(id: string) | Other

  /** What went out to the Agent for a native request. */
  datatype Settlement = Settlement(ask: nat, outcome: Answer)

  /** `runs` in insertion order; `turns` are the prompts still out, with the session they serve;
    * `settled` is the history of native requests answered. */
  datatype Desk = Desk(
    runs: seq<Run>,
    asks: map<nat, Ask>,
    turns: map<nat, string>,
    disposed: bool,
    sequence: nat,
    settled: seq<Settlement>)

  const NEW_DESK: Desk := Desk([], map[], map[], false, 0, [])

  datatype Event =
    | StartTurn(key: string)
    | FinishTurn(run: nat, status: Status)
    | Stop(key: string, run: nat)
    | Respond(ask: nat, answer: Answer)
    | Request(key: string, choices: set<string>)
    | Dispose

  predicate Enabled(d: Desk, e: Event) {
    e.FinishTurn? ==> e.run in d.turns && !Open(e.status)
  }

  // ----- the run table -----

  function FindRun(runs: seq<Run>, id: nat): (r: Option<Run>)
    ensures r.Some? ==> r.value in runs && r.value.id == id
    ensures r.None? ==> forall run <- runs :: run.id != id
  {
    if runs == [] then None else if runs[0].id == id then Some(runs[0]) else FindRun(runs[1..], id)
  }

  predicate FirstOpen(runs: seq<Run>, key: string, i: int) {
    && 0 <= i < |runs| && runs[i].session == key && Open(runs[i].status)
    && forall j | 0 <= j < i :: runs[j].session != key || !Open(runs[j].status)
  }

  /** The first open run of a session. */
  function OpenRunOf(runs: seq<Run>, key: string): (r: Option<Run>)
    ensures r.Some? ==> exists i :: FirstOpen(runs, key, i) && r.value == runs[i]
    ensures r.None? ==> forall run <- runs :: run.session != key || !Open(run.status)
  {
    if runs == [] then None
    else if runs[0].session == key && Open(runs[0].status) then
      assert FirstOpen(runs, key, 0);
      Some(runs[0])
    else
      var r := OpenRunOf(runs[1..], key);
      assert forall i | FirstOpen(runs[1..], key, i) :: FirstOpen(runs, key, i + 1) && runs[i + 1] == runs[1..][i];
      r
  }

  /** `startTurn` drops the session's settled runs. */
  function WithoutSettled(runs: seq<Run>, key: string): seq<Run> {
    if runs == [] then []
    else
      var last := runs[|runs| - 1];
      WithoutSettled(runs[..|runs| - 1], key) + if last.session == key && !Open(last.status) then [] else [last]
  }

  function SetStatus(runs: seq<Run>, id: nat, status: Status): seq<Run> {
    seq(|runs|, i requires 0 <= i < |runs| => if runs[i].id == id then runs[i].(status := status) else runs[i])
  }

  function LoseOpen(runs: seq<Run>): seq<Run> {
    seq(|runs|, i requires 0 <= i < |runs| => if Open(runs[i].status) then runs[i].(status := Unknown) else runs[i])
  }

  function Strand(asks: map<nat, Ask>, key: string): map<nat, Ask> {
    map a <- asks :: if asks[a].session == key && asks[a].state.Pending? then asks[a].(state := Stranded) else asks[a]
  }

  /** No ask of the session can be answered any more. */
  predicate NonePending(asks: map<nat, Ask>, key: string) {
    forall a <- asks :: asks[a].session == key ==> !asks[a].state.Pending?
  }

  function StrandAll(asks: map<nat, Ask>): map<nat, Ask> {
    map a <- asks :: if asks[a].state.Pending? then asks[a].(state := Stranded) else asks[a]
  }

  // ----- the steps -----

  /** What `respond` checks before anything goes out on the wire. */
  predicate Answerable(d: Desk, ask: nat, answer: Answer) {
    && ask in d.asks && d.asks[ask].state.Pending? && d.asks[ask].owner.Some?
    && FindRun(d.runs, d.asks[ask].owner.value).Some?
    && FindRun(d.runs, d.asks[ask].owner.value).value.status.Running?
    && (answer.Cancel? || (answer.Choice? && answer.id in d.asks[ask].choices))
  }

  function Step(d: Desk, e: Event): Desk
    requires Enabled(d, e)
  {
    match e
    case StartTurn(key) =>
      var id := d.sequence + 1;
      d.(runs := WithoutSettled(d.runs, key) + [Run(id, key, Running)], turns := d.turns[id := key], sequence := id)
    case FinishTurn(run, status) =>
      d.(runs := SetStatus(d.runs, run, status), turns := d.turns - {run}, asks := Strand(d.asks, d.turns[run]))
    case Stop(key, run) =>
      var found := FindRun(d.runs, run);
      if d.disposed || found.None? || found.value.session != key || !Open(found.value.status) then d
      else d.(runs := SetStatus(d.runs, run, StopRequested), asks := Strand(d.asks, key))
    case Respond(ask, answer) =>
      if !Answerable(d, ask, answer) then d
      else d.(asks := d.asks[ask := d.asks[ask].(state := Resolved)], settled := d.settled + [Settlement(ask, answer)])
    case Request(key, choices) =>
      if d.disposed then d
      else
        var id, run := d.sequence + 1, OpenRunOf(d.runs, key);
        var owner := if run.Some? then Some(run.value.id) else None;
        var state := if run.Some? && run.value.status.Running? then Pending else Stranded;
        d.(asks := d.asks[id := Ask(key, owner, choices, state)], sequence := id)
    case Dispose =>
      if d.disposed then d else d.(disposed := true, runs := LoseOpen(d.runs), asks := StrandAll(d.asks))
  }

  // ----- the invariant -----

  ghost predicate RunsInv(d: Desk) {
    && DistinctRuns(d.runs)
    && (forall run <- d.runs :: run.id <= d.sequence)
    && (forall t <- d.turns :: t <= d.sequence)
    && (forall run <- d.runs :: run.id in d.turns ==> d.turns[run.id] == run.session)
  }

  /** The ask's owner is a run of its own session that is running now. */
  ghost predicate Owned(runs: seq<Run>, ask: Ask) {
    ask.owner.Some? && Run(ask.owner.value, ask.session, Running) in runs
  }

  ghost predicate AsksInv(d: Desk) {
    && (forall a <- d.asks :: a <= d.sequence)
    && (forall a <- d.asks :: d.asks[a].state.Pending? ==> Owned(d.runs, d.asks[a]))
    && (forall s <- d.settled :: s.ask in d.asks && d.asks[s.ask].state.Resolved?)
    && (forall i, j | 0 <= i < j < |d.settled| :: d.settled[i].ask != d.settled[j].ask)
  }

  ghost predicate Inv(d: Desk) {
    RunsInv(d) && AsksInv(d)
  }

  lemma {:induction false} WithoutSettledMembers(runs: seq<Run>, key: string, run: Run)
    ensures run in WithoutSettled(runs, key) <==> run in runs && (run.session == key ==> Open(run.status))
  {
    if runs != [] {
      WithoutSettledMembers(runs[..|runs| - 1], key, run);
      assert runs == runs[..|runs| - 1] + [runs[|runs| - 1]];
    }
  }

  ghost predicate DistinctRuns(runs: seq<Run>) {
    forall i, j | 0 <= i < j < |runs| :: runs[i].id != runs[j].id
  }

  lemma {:induction false} WithoutSettledDistinct(runs: seq<Run>, key: string)
    requires DistinctRuns(runs)
    ensures DistinctRuns(WithoutSettled(runs, key))
  {
    if runs != [] {
      var before, last := runs[..|runs| - 1], runs[|runs| - 1];
      WithoutSettledDistinct(before, key);
      var kept := WithoutSettled(before, key);
      forall i | 0 <= i < |kept| ensures kept[i].id != last.id {
        WithoutSettledMembers(before, key, kept[i]);
        var k :| 0 <= k < |before| && before[k] == kept[i];
        assert runs[k].id != runs[|runs| - 1].id;
      }
    }
  }

  lemma FoundIsUnique(runs: seq<Run>, run: Run)
    requires DistinctRuns(runs) && run in runs
    ensures FindRun(runs, run.id) == Some(run)
  {
  }

  lemma SetStatusKeeps(runs: seq<Run>, id: nat, status: Status)
    ensures var after := SetStatus(runs, id, status);
            && |after| == |runs|
            && (forall i | 0 <= i < |runs| :: after[i].id == runs[i].id && after[i].session == runs[i].session)
            && (forall run <- runs :: run.id != id ==> run in after)
  {
    var after := SetStatus(runs, id, status);
    forall run <- runs | run.id != id ensures run in after {
      var i :| 0 <= i < |runs| && runs[i] == run;
      assert after[i] == run;
    }
  }

  lemma StartTurnKeeps(d: Desk, key: string)
    requires Inv(d)
    ensures Inv(Step(d, StartTurn(key)))
  {
    WithoutSettledDistinct(d.runs, key);
    var after := Step(d, StartTurn(key));
    forall a <- d.asks | d.asks[a].state.Pending? ensures Owned(after.runs, d.asks[a]) {
      WithoutSettledMembers(d.runs, key, Run(d.asks[a].owner.value, d.asks[a].session, Running));
    }
    forall run <- WithoutSettled(d.runs, key) ensures run in d.runs { WithoutSettledMembers(d.runs, key, run); }
  }

  /** Changing one run's status while stranding its session's asks. */
  lemma VerdictKeeps(d: Desk, run: nat, status: Status, key: string, turns: map<nat, string>)
    requires Inv(d) && (forall r <- d.runs :: r.id == run ==> r.session == key)
    requires turns == d.turns || turns == d.turns - {run}
    ensures Inv(d.(runs := SetStatus(d.runs, run, status), asks := Strand(d.asks, key), turns := turns))
    ensures NonePending(Strand(d.asks, key), key)
  {
    SetStatusKeeps(d.runs, run, status);
    var after := SetStatus(d.runs, run, status);
    forall r <- after ensures r.id <= d.sequence && (r.id in turns ==> turns[r.id] == r.session) {
      var i :| 0 <= i < |after| && after[i] == r;
      assert d.runs[i] in d.runs;
    }
    forall a <- d.asks | d.asks[a].state.Pending? && d.asks[a].session != key ensures Owned(after, d.asks[a]) {
      assert Run(d.asks[a].owner.value, d.asks[a].session, Running) in d.runs;
    }
  }

  lemma DisposeKeeps(d: Desk)
    requires Inv(d)
    ensures Inv(Step(d, Dispose))
  {
    var after := LoseOpen(d.runs);
    forall r <- after ensures r.id <= d.sequence && (r.id in d.turns ==> d.turns[r.id] == r.session) {
      var i :| 0 <= i < |after| && after[i] == r;
      assert d.runs[i] in d.runs;
    }
  }

  lemma StepKeepsInv(d: Desk, e: Event)
    requires Inv(d) && Enabled(d, e)
    ensures Inv(Step(d, e))
  {
    match e
    case StartTurn(key) => StartTurnKeeps(d, key);
    case FinishTurn(run, status) => VerdictKeeps(d, run, status, d.turns[run], d.turns - {run});
    case Stop(key, run) =>
      if Step(d, e) != d {
        forall r <- d.runs | r.id == run ensures r.session == key { FoundIsUnique(d.runs, r); }
        VerdictKeeps(d, run, StopRequested, key, d.turns);
      }
    case Respond(ask, answer) =>
    case Request(key, choices) =>
    case Dispose => DisposeKeeps(d);
  }

  /** Stopping, finishing or disposing leaves no submittable ask behind. */
  lemma EndingsStrandAsks(d: Desk, e: Event)
    requires Inv(d) && Enabled(d, e) && (e.FinishTurn? || e.Stop? || e.Dispose?)
    ensures var after := Step(d, e);
            && (e.FinishTurn? ==> NonePending(after.asks, d.turns[e.run]))
            && (e.Stop? && after != d ==> NonePending(after.asks, e.key))
            && (e.Dispose? && !d.disposed ==> forall a <- after.asks :: !after.asks[a].state.Pending?)
  {
  }

  /** A native request is settled only while the run that received it is running, and the receiving
    * run of an ask never changes. */
  lemma SettledOnlyByItsRun(d: Desk, e: Event, a: nat)
    requires Inv(d) && Enabled(d, e) && a in d.asks
    ensures a in Step(d, e).asks
    ensures Step(d, e).asks[a].owner == d.asks[a].owner && Step(d, e).asks[a].session == d.asks[a].session
    ensures Step(d, e).settled != d.settled && a == Step(d, e).settled[|d.settled|].ask ==>
              Owned(d.runs, d.asks[a]) && Step(d, e).settled == d.settled + [Settlement(a, e.answer)]
    ensures !d.asks[a].state.Pending? ==> Step(d, e).asks[a].state == d.asks[a].state
  {
    assert e.Respond? && Answerable(d, e.ask, e.answer) ==> Step(d, e).settled[|d.settled|].ask == e.ask;
  }

  // ----- runs -----

  ghost predicate Possible(events: seq<Event>)
    decreases |events|, 0
  {
    events == [] || (Possible(events[..|events| - 1]) && Enabled(After(events[..|events| - 1]), events[|events| - 1]))
  }

  ghost function After(events: seq<Event>): Desk
    requires Possible(events)
    decreases |events|, 1
  {
    if events == [] then NEW_DESK else Step(After(events[..|events| - 1]), events[|events| - 1])
  }

  /** Over all runs: every pending interaction names an existing running run of its own session, and
    * no native request is settled twice. */
  lemma {:induction false} OwnershipHolds(events: seq<Event>)
    requires Possible(events)
    ensures var d := After(events);
            && Inv(d)
            && (forall a <- d.asks :: d.asks[a].state.Pending? ==> Owned(d.runs, d.asks[a]))
            && (forall i, j | 0 <= i < j < |d.settled| :: d.settled[i].ask != d.settled[j].ask)
  {
    if events != [] {
      OwnershipHolds(events[..|events| - 1]);
      StepKeepsInv(After(events[..|events| - 1]), events[|events| - 1]);
    }
  }

  // ----- what an answer may be -----

  /** Event `i` is the request that the ask stands for, with the options it came with. */
  ghost predicate Brought(events: seq<Event>, i: int, ask: nat, key: string, choices: set<string>) {
    && 0 <= i < |events| && events[i] == Request(key, choices)
    && Possible(events[..i]) && !After(events[..i]).disposed && ask == After(events[..i]).sequence + 1
  }

  /** The answer is a cancel or one of the options. */
  predicate Offered(answer: Answer, choices: set<string>) {
    answer == Cancel || exists id <- choices :: answer == Choice(id)
  }

  lemma BroughtMore(events: seq<Event>, e: Event, i: int, ask: nat, key: string, choices: set<string>)
    requires i < |events|
    ensures Brought(events + [e], i, ask, key, choices) <==> Brought(events, i, ask, key, choices)
  {
    assert 0 <= i ==> (events + [e])[..i] == events[..i];
  }

  ghost predicate FromItsRequest(events: seq<Event>, a: nat, ask: Ask) {
    exists i :: Brought(events, i, a, ask.session, ask.choices)
  }

  lemma OldAskStays(d: Desk, e: Event, a: nat)
    requires Enabled(d, e) && a in d.asks && a <= d.sequence
    ensures a in Step(d, e).asks && Step(d, e).asks[a].session == d.asks[a].session
    ensures Step(d, e).asks[a].choices == d.asks[a].choices
  {
  }

  lemma AskStays(d: Desk, e: Event, a: nat)
    requires Enabled(d, e) && Inv(d) && a in Step(d, e).asks
    ensures a in d.asks ==> Step(d, e).asks[a].session == d.asks[a].session
    ensures a in d.asks ==> Step(d, e).asks[a].choices == d.asks[a].choices
    ensures a !in d.asks ==>
              e == Request(Step(d, e).asks[a].session, Step(d, e).asks[a].choices) && !d.disposed && a == d.sequence + 1
  {
  }

  /** Every ask holds what its request came with. */
  lemma {:induction false} AsksAreBrought(events: seq<Event>)
    requires Possible(events)
    ensures Inv(After(events)) && forall a <- After(events).asks :: FromItsRequest(events, a, After(events).asks[a])
  {
    OwnershipHolds(events);
    if events == [] { return; }
    var init, e := events[..|events| - 1], events[|events| - 1];
    AsksAreBrought(init);
    var d, after := After(init), After(events);
    assert events == init + [e];
    forall a <- after.asks ensures FromItsRequest(events, a, after.asks[a]) {
      AskStays(d, e, a);
      if a in d.asks {
        var i :| Brought(init, i, a, d.asks[a].session, d.asks[a].choices);
        BroughtMore(init, e, i, a, d.asks[a].session, d.asks[a].choices);
      } else {
        assert Brought(events, |init|, a, after.asks[a].session, after.asks[a].choices);
      }
    }
  }

  lemma {:induction false} BroughtOnce(events: seq<Event>, i: int, a: nat, key: string, choices: set<string>)
    requires Possible(events) && Brought(events, i, a, key, choices)
    ensures a in After(events).asks && After(events).asks[a].session == key && After(events).asks[a].choices == choices
  {
    var init, e := events[..|events| - 1], events[|events| - 1];
    assert events == init + [e];
    OwnershipHolds(init);
    if i < |init| {
      BroughtMore(init, e, i, a, key, choices);
      BroughtOnce(init, i, a, key, choices);
      OldAskStays(After(init), e, a);
    } else {
      assert events[..i] == init;
    }
  }

  lemma SettledMoves(d: Desk, e: Event, s: Settlement)
    requires Enabled(d, e) && s in Step(d, e).settled && s !in d.settled
    ensures e == Respond(s.ask, s.outcome) && s.ask in d.asks && Offered(s.outcome, d.asks[s.ask].choices)
  {
  }

  /** Over every run, a native request is answered by a response to it that is a cancel or one of the options the
    * request itself came with. */
  lemma {:induction false} OutcomesAreOffered(events: seq<Event>, s: Settlement)
    requires Possible(events) && s in After(events).settled
    ensures Respond(s.ask, s.outcome) in events
    ensures exists i, key, choices :: Brought(events, i, s.ask, key, choices) && Offered(s.outcome, choices)
  {
    var init, e := events[..|events| - 1], events[|events| - 1];
    assert events == init + [e];
    if s in After(init).settled {
      OutcomesAreOffered(init, s);
      var i, key, choices :| Brought(init, i, s.ask, key, choices) && Offered(s.outcome, choices);
      BroughtMore(init, e, i, s.ask, key, choices);
    } else {
      AsksAreBrought(init);
      SettledMoves(After(init), e, s);
      var ask := After(init).asks[s.ask];
      var i :| Brought(init, i, s.ask, ask.session, ask.choices);
      BroughtMore(init, e, i, s.ask, ask.session, ask.choices);
    }
  }

  /** And conversely: in every run, a response to a pending ask goes out exactly if it is a cancel or one of its
    * request's options. Any other response, and every response to an ask that is not pending, changes nothing. */
  lemma AnsweredExactly(events: seq<Event>, i: int, a: nat, key: string, choices: set<string>, answer: Answer)
    requires Possible(events) && Brought(events, i, a, key, choices)
    ensures var d := After(events);
            a in d.asks &&
            Step(d, Respond(a, answer)) ==
            if d.asks[a].state.Pending? && Offered(answer, choices)
            then d.(asks := d.asks[a := d.asks[a].(state := Resolved)], settled := d.settled + [Settlement(a, answer)])
            else d
  {
    BroughtOnce(events, i, a, key, choices);
    OwnershipHolds(events);
    var d := After(events);
    if d.asks[a].state.Pending? { FoundIsUnique(d.runs, Run(d.asks[a].owner.value, key, Running)); }
  }

  // ----- which asks are open -----

  /** The event closes the ask: its session's turn ends, is stopped or is disposed of, or the ask is answered. */
  ghost predicate Closes(d: Desk, e: Event, a: nat)
    requires Enabled(d, e) && a in d.asks
  {
    match e
    case FinishTurn(run, _) => d.turns[run] == d.asks[a].session
    case Stop(key, id) =>
      && !d.disposed && key == d.asks[a].session
      && exists run <- d.runs :: run.id == id && run.session == key && Open(run.status)
    case Respond(ask, answer) => ask == a && Offered(answer, d.asks[a].choices)
    case Dispose => !d.disposed
    case _ => false
  }

  /** The session's first open run is running. */
  ghost predicate Answering(runs: seq<Run>, key: string) {
    exists i :: FirstOpen(runs, key, i) && runs[i].status == Running
  }

  /** The ask came while a run of its session was answering, and nothing has closed it since. */
  ghost predicate StillOpen(events: seq<Event>, a: nat)
    requires Possible(events)
  {
    events != [] &&
    var d, e := After(events[..|events| - 1]), events[|events| - 1];
    if a in d.asks then StillOpen(events[..|events| - 1], a) && !Closes(d, e, a)
    else e.Request? && !d.disposed && a == d.sequence + 1 && Answering(d.runs, e.key)
  }

  lemma FirstOpenIsOne(runs: seq<Run>, key: string, i: int, j: int)
    requires FirstOpen(runs, key, i) && FirstOpen(runs, key, j)
    ensures i == j
  {
  }

  lemma OpenMoves(d: Desk, e: Event, a: nat)
    requires Inv(d) && Enabled(d, e) && a in d.asks
    ensures Step(d, e).asks[a].state.Pending? <==> d.asks[a].state.Pending? && !Closes(d, e, a)
  {
    if e.Stop? {
      forall run <- d.runs | run.id == e.run ensures FindRun(d.runs, e.run) == Some(run) { FoundIsUnique(d.runs, run); }
    }
    if e.Respond? && e.ask == a && d.asks[a].state.Pending? {
      FoundIsUnique(d.runs, Run(d.asks[a].owner.value, d.asks[a].session, Running));
    }
  }

  lemma OpenStarts(d: Desk, e: Event, a: nat)
    requires Inv(d) && Enabled(d, e) && a !in d.asks && a in Step(d, e).asks
    ensures e.Request? && (Step(d, e).asks[a].state.Pending? <==> Answering(d.runs, e.key))
  {
    var run := OpenRunOf(d.runs, e.key);
    if run.Some? {
      var i :| FirstOpen(d.runs, e.key, i) && run.value == d.runs[i];
      forall j | FirstOpen(d.runs, e.key, j) ensures j == i { FirstOpenIsOne(d.runs, e.key, i, j); }
    }
  }

  /** Which asks can be answered: those that came while their session was answering, as long as nothing closed them. */
  lemma {:induction false} PendingExactly(events: seq<Event>, a: nat)
    requires Possible(events) && a in After(events).asks
    ensures After(events).asks[a].state.Pending? <==> StillOpen(events, a)
  {
    var init, e := events[..|events| - 1], events[|events| - 1];
    OwnershipHolds(init);
    var d := After(init);
    if a in d.asks {
      PendingExactly(init, a);
      OpenMoves(d, e, a);
    } else {
      AskStays(d, e, a);
      OpenStarts(d, e, a);
    }
  }

  // ----- the status of a run -----

  /** What an event makes of the status of one run. */
  function Moved(before: Status, e: Event, id: nat, key: string, disposed: bool): Status {
    match e
    case FinishTurn(run, status) => if run == id then status else before
    case Stop(k, run) => if run == id && k == key && Open(before) && !disposed then StopRequested else before
    case Dispose => if Open(before) && !disposed then Unknown else before
    case _ => before
  }

  /** The status of run `id` of the session, told by the events that name it, without the run table. */
  ghost function Told(events: seq<Event>, id: nat, key: string): Status
    requires Possible(events)
  {
    if events == [] then Unknown
    else
      var init, e := events[..|events| - 1], events[|events| - 1];
      if e.StartTurn? && id == After(init).sequence + 1 then Running
      else Moved(Told(init, id, key), e, id, key, After(init).disposed)
  }

  lemma StatusMoves(d: Desk, e: Event, run: Run)
    requires Inv(d) && Enabled(d, e) && run in Step(d, e).runs
    ensures || (e == StartTurn(run.session) && run == Run(d.sequence + 1, run.session, Running))
            || exists was <- d.runs ::
                 && was.id == run.id && was.session == run.session
                 && run.status == Moved(was.status, e, run.id, run.session, d.disposed)
  {
    var runs := Step(d, e).runs;
    match e
    case StartTurn(key) => WithoutSettledMembers(d.runs, key, run);
    case Stop(key, id) =>
      var i :| 0 <= i < |runs| && runs[i] == run;
      var was := d.runs[i];
      assert was in d.runs;
      if was.id == id { FoundIsUnique(d.runs, was); }
    case FinishTurn(_, _) =>
      var i :| 0 <= i < |runs| && runs[i] == run;
      assert d.runs[i] in d.runs;
    case Dispose =>
      var i :| 0 <= i < |runs| && runs[i] == run;
      assert d.runs[i] in d.runs;
    case _ =>
  }

  /** A run in the table has the status its own events gave it, whatever other runs did. */
  lemma {:induction false} StatusIsItsOwn(events: seq<Event>, run: Run)
    requires Possible(events) && run in After(events).runs
    ensures run.status == Told(events, run.id, run.session)
  {
    var init, e := events[..|events| - 1], events[|events| - 1];
    OwnershipHolds(init);
    var d := After(init);
    StatusMoves(d, e, run);
    if !(e == StartTurn(run.session) && run == Run(d.sequence + 1, run.session, Running)) {
      var was :| was in d.runs && was.id == run.id && was.session == run.session
                 && run.status == Moved(was.status, e, run.id, run.session, d.disposed);
      StatusIsItsOwn(init, was);
    }
  }

  /** The desk some events later. */
  ghost predicate Follows(d: Desk, events: seq<Event>)
    decreases |events|, 0
  {
    events == [] ||
    (Follows(d, events[..|events| - 1]) && Enabled(Later(d, events[..|events| - 1]), events[|events| - 1]))
  }

  ghost function Later(d: Desk, events: seq<Event>): Desk
    requires Follows(d, events)
    decreases |events|, 1
  {
    if events == [] then d else Step(Later(d, events[..|events| - 1]), events[|events| - 1])
  }

  /** An ask that cannot be answered now is never answered later. */
  lemma {:induction false} ClosedStaysClosed(d: Desk, events: seq<Event>, a: nat)
    requires Inv(d) && Follows(d, events) && a in d.asks && !d.asks[a].state.Pending?
    ensures Inv(Later(d, events)) && a in Later(d, events).asks && Later(d, events).asks[a].state == d.asks[a].state
    ensures forall k | |d.settled| <= k < |Later(d, events).settled| :: Later(d, events).settled[k].ask != a
    ensures d.settled <= Later(d, events).settled
  {
    if events != [] {
      var init, e := events[..|events| - 1], events[|events| - 1];
      ClosedStaysClosed(d, init, a);
      var before := Later(d, init);
      StepKeepsInv(before, e);
      SettledOnlyByItsRun(before, e, a);
      assert before.settled <= Step(before, e).settled;
    }
  }

  /** The asks a stop, a verdict or a disposal finds in its session are never answered afterwards, whatever follows. */
  lemma EndedAsksStayClosed(d: Desk, e: Event, events: seq<Event>, a: nat)
    requires Inv(d) && Enabled(d, e) && a in d.asks && Follows(Step(d, e), events)
    requires match e
             case FinishTurn(run, _) => d.asks[a].session == d.turns[run]
             case Stop(key, _) => Step(d, e) != d && d.asks[a].session == key
             case Dispose => !d.disposed
             case _ => false
    ensures var later := Later(Step(d, e), events);
            && a in later.asks && !later.asks[a].state.Pending?
            && forall k | |d.settled| <= k < |later.settled| :: later.settled[k].ask != a
  {
    StepKeepsInv(d, e);
    EndingsStrandAsks(d, e);
    SettledOnlyByItsRun(d, e, a);
    assert Step(d, e).settled == d.settled;
    ClosedStaysClosed(Step(d, e), events, a);
  }

  /** The client's run and interaction tables, updated in place. */
  class ApprovalDesk {
    var runs: seq<Run>
    var asks: map<nat, Ask>
    ghost var turns: map<nat, string>
    var disposed: bool
    var sequence: nat
    ghost var settled: seq<Settlement>

    ghost function View(): Desk
      reads this
    {
      Desk(runs, asks, turns, disposed, sequence, settled)
    }

    constructor ()
      ensures View() == NEW_DESK
    {
      runs, asks, turns, disposed, sequence, settled := [], map[], map[], false, 0, [];
    }

    method StrandPending(key: string)
      modifies this`asks
      ensures asks == Strand(old(asks), key)
    {
      var todo := asks.Keys;
      while todo != {}
        invariant todo <= asks.Keys == old(asks).Keys
        invariant forall a <- asks :: asks[a] == if a in todo then old(asks)[a] else Strand(old(asks), key)[a]
        decreases todo
      {
        var a :| a in todo;
        todo := todo - {a};
        if asks[a].session == key && asks[a].state.Pending? {
          asks := asks[a := asks[a].(state := Stranded)];
        }
      }
    }

    method SetRunStatus(id: nat, status: Status)
      modifies this`runs
      ensures runs == SetStatus(old(runs), id, status)
    {
      for i := 0 to |runs|
        invariant |runs| == |old(runs)|
        invariant forall k | 0 <= k < i :: runs[k] == SetStatus(old(runs), id, status)[k]
        invariant forall k | i <= k < |runs| :: runs[k] == old(runs)[k]
      {
        if runs[i].id == id { runs := runs[i := runs[i].(status := status)]; }
      }
    }

    method BeginTurn(key: string) returns (id: nat)
      modifies this
      ensures View() == Step(old(View()), StartTurn(key)) && id == sequence
    {
      sequence := sequence + 1;
      id := sequence;
      var left := [];
      for i := 0 to |runs|
        invariant left == WithoutSettled(runs[..i], key)
      {
        assert runs[..i + 1][..i] == runs[..i];
        if !(runs[i].session == key && !Open(runs[i].status)) { left := left + [runs[i]]; }
      }
      assert runs[..|runs|] == runs;
      runs := left + [Run(id, key, Running)];
      turns := turns[id := key];
    }

    method EndTurn(id: nat, key: string, status: Status)
      requires Enabled(View(), FinishTurn(id, status)) && turns[id] == key
      modifies this
      ensures View() == Step(old(View()), FinishTurn(id, status))
    {
      SetRunStatus(id, status);
      turns := turns - {id};
      StrandPending(key);
    }

    method RequestStop(key: string, id: nat) returns (accepted: bool)
      modifies this
      ensures View() == Step(old(View()), Stop(key, id))
      ensures !accepted ==> View() == old(View())
    {
      var found := FindRun(runs, id);
      if disposed || found.None? || found.value.session != key || !Open(found.value.status) { return false; }
      SetRunStatus(id, StopRequested);
      StrandPending(key);
      accepted := true;
    }

    method Reply(ask: nat, answer: Answer) returns (sent: bool)
      modifies this
      ensures View() == Step(old(View()), Respond(ask, answer))
      ensures sent == Answerable(old(View()), ask, answer)
      ensures sent ==> ask in old(asks) && Offered(answer, old(asks)[ask].choices)
    {
      if ask !in asks || !asks[ask].state.Pending? || asks[ask].owner.None? { return false; }
      var run := FindRun(runs, asks[ask].owner.value);
      if run.None? || !run.value.status.Running? { return false; }
      match answer {
        case Cancel =>
        case Choice(id) => if id !in asks[ask].choices { return false; }
        case Other => return false;
      }
      settled := settled + [Settlement(ask, answer)];
      asks := asks[ask := asks[ask].(state := Resolved)];
      sent := true;
    }

    method OnRequest(key: string, choices: set<string>)
      modifies this
      ensures View() == Step(old(View()), Request(key, choices))
    {
      if disposed { return; }
      sequence := sequence + 1;
      var run := OpenRunOf(runs, key);
      asks := asks[sequence := Ask(key, if run.Some? then Some(run.value.id) else None, choices,
                                   if run.Some? && run.value.status.Running? then Pending else Stranded)];
    }

    method DisposeDesk()
      modifies this
      ensures View() == Step(old(View()), Dispose)
    {
      if disposed { return; }
      disposed := true;
      for i := 0 to |runs|
        modifies this`runs
        invariant |runs| == |old(runs)|
        invariant forall k | 0 <= k < i :: runs[k] == LoseOpen(old(runs))[k]
        invariant forall k | i <= k < |runs| :: runs[k] == old(runs)[k]
      {
        if Open(runs[i].status) { runs := runs[i := runs[i].(status := Unknown)]; }
      }
      assert runs == LoseOpen(old(runs));
      var todo := asks.Keys;
      while todo != {}
        modifies this`asks
        invariant todo <= asks.Keys == old(asks).Keys
        invariant forall a <- asks :: asks[a] == if a in todo then old(asks)[a] else StrandAll(old(asks))[a]
        decreases todo
      {
        var a :| a in todo;
        todo := todo - {a};
        if asks[a].state.Pending? { asks := asks[a := asks[a].(state := Stranded)]; }
      }
      assert asks == StrandAll(old(asks));
    }
  }
}
