/** The client object whose fields the release lifecycle updates in place. Each method is one
  * stretch of code between two awaits and returns what its watchers and the backend are shown. */
module AcpClientRelease {
  import opened Wrappers
  import opened ReleaseProtocol

  class AcpClient {
    var isDisposed: bool
    var releasesDrained: bool
    var channels: map<string, Handle>
    var opening: map<string, nat>
    var tasks: map<nat, Task>
    var nextTask: nat
    var unownedHandles: set<Handle>
    var releasedHandles: set<Handle>
    var releasing: set<Handle>
    var releaseLedger: map<string, Record>
    var passes: map<nat, seq<Handle>>
    var nextPass: nat
    ghost var acquired: set<Handle>

    ghost function View(): Client
      reads this
    {
      Client(isDisposed, releasesDrained, Book(releaseLedger, releasing, releasedHandles, acquired),
             Desk(opening, tasks, nextTask), channels, unownedHandles, Retries(passes, nextPass))
    }

    constructor ()
      ensures View() == FRESH
    {
      isDisposed, releasesDrained := false, false;
      channels, opening, tasks, nextTask := map[], map[], map[], 0;
      unownedHandles, releasedHandles, releasing := {}, {}, {};
      releaseLedger, passes, nextPass := map[], map[], 0;
      acquired := {};
    }

    method MaybeDrainReleases() returns (shown: seq<Effect>)
      modifies this`releasesDrained
      ensures (View(), shown) == Drain(old(View()))
    {
      if releasesDrained || !isDisposed || releaseLedger != map[] || unownedHandles != {} || opening != map[] {
        return [];
      }
      releasesDrained := true;
      shown := [Settle];
    }

    method Announce(h: Handle, news: News) returns (shown: seq<Effect>)
      modifies this`releasesDrained, this`releaseLedger
      ensures (View(), shown) == AnnounceRelease(old(View()), h, news)
    {
      match news {
        case Confirmed => releaseLedger := releaseLedger - {h.connectionId};
        case Outstanding(status) => releaseLedger := releaseLedger[h.connectionId := Record(h, status)];
      }
      var more := MaybeDrainReleases();
      shown := [Effect.Announce(h, news)] + more;
    }

    /** Concurrent callers join the attempt: only the first issues a request. */
    method Release(h: Handle) returns (shown: seq<Effect>)
      modifies this`releasesDrained, this`releaseLedger, this`releasing
      ensures (View(), shown) == ReleaseHandle(old(View()), h)
    {
      if h in releasedHandles || h in releasing { return []; }
      shown := Announce(h, Outstanding(InFlight));
      shown := shown + [Request(h)];
      releasing := releasing + {h};
    }

    method OnReleaseAnswered(h: Handle, refusal: Option<string>) returns (shown: seq<Effect>)
      requires Deliverable(View(), ReleaseAnswered(h, refusal))
      modifies this
      ensures (View(), shown) == Answer(old(View()), h, refusal)
    {
      match refusal {
        case None =>
          releasedHandles := releasedHandles + {h};
          shown := Announce(h, Confirmed);
        case Some(reason) =>
          shown := Announce(h, Outstanding(Failed(reason)));
      }
      releasing := releasing - {h};
    }

    method EnsureChannel(project: string)
      modifies this
      ensures View() == OpenStep(old(View()), project)
    {
      if isDisposed || project in channels || project in opening { return; }
      tasks := tasks[nextTask := Task(project, OpeningProject)];
      opening := opening[project := nextTask];
      nextTask := nextTask + 1;
    }

    method OnProjectOpened(t: nat, ok: bool)
      requires Deliverable(View(), ProjectOpened(t, ok))
      modifies this`tasks
      ensures View() == old(View()).(desk := SetPhase(old(View()).desk, t, if ok then Acquiring else Finished))
    {
      tasks := tasks[t := Task(tasks[t].project, if ok then Acquiring else Finished)];
    }

    method OnAcquired(t: nat, got: Option<Handle>) returns (shown: seq<Effect>)
      requires Deliverable(View(), Acquired(t, got))
      modifies this
      ensures (View(), shown) == AcquiredStep(old(View()), t, got)
    {
      shown := [];
      var project := tasks[t].project;
      match got {
        case None =>
          tasks := tasks[t := Task(project, Finished)];
        case Some(h) =>
          acquired := acquired + {h};
          unownedHandles := unownedHandles + {h};
          if h.boundProject != project || isDisposed {
            unownedHandles := unownedHandles - {h};
            shown := Release(h);
            tasks := tasks[t := Task(project, Refusing(h))];
          } else {
            tasks := tasks[t := Task(project, Initializing(h))];
          }
      }
    }

    method OnInitialized(t: nat, ok: bool) returns (shown: seq<Effect>)
      requires Deliverable(View(), Initialized(t, ok))
      modifies this
      ensures (View(), shown) == InitializedStep(old(View()), t, ok)
      ensures var h := old(tasks)[t].phase.handle;
              if ok && !isDisposed
              then && shown == [] && channels == old(channels)[h.boundProject := h]
                   && unownedHandles == old(unownedHandles) - {h}
              else channels == old(channels) && unownedHandles == old(unownedHandles)
    {
      var h := tasks[t].phase.handle;
      if ok && !isDisposed {
        unownedHandles := unownedHandles - {h};
        channels := channels[h.boundProject := h];
        tasks := tasks[t := Task(tasks[t].project, Finished)];
        shown := [];
      } else {
        shown := Release(h);
        tasks := tasks[t := Task(tasks[t].project, InitFailed(h))];
      }
    }

    method OnStoodDown(t: nat)
      requires Deliverable(View(), StoodDown(t))
      modifies this
      ensures View() == StoodDownStep(old(View()), t)
    {
      if tasks[t].phase.InitFailed? {
        unownedHandles := unownedHandles - {tasks[t].phase.handle};
      }
      tasks := tasks[t := Task(tasks[t].project, Finished)];
    }

    method OnTaskSettled(t: nat) returns (shown: seq<Effect>)
      requires Deliverable(View(), TaskSettled(t))
      modifies this
      ensures (View(), shown) == TaskSettledStep(old(View()), t)
    {
      var project := tasks[t].project;
      if project in opening && opening[project] == t {
        opening := opening - {project};
      }
      tasks := tasks - {t};
      shown := MaybeDrainReleases();
    }

    /** Stands down every channel and every handle whose handshake is still under way. */
    method DisposeClient() returns (shown: seq<Effect>, ghost order: seq<Handle>)
      modifies this
      ensures Enumerates(order, old(channels).Values + old(unownedHandles))
      ensures (View(), shown) == DisposeStep(old(View()), order)
    {
      ghost var all := channels.Values + unownedHandles;
      shown, order := [], [];
      var todo := channels.Values + unownedHandles;
      if isDisposed {
        order := AnyOrder(all);
        return;
      }
      isDisposed := true;
      ghost var start := View();
      while todo != {}
        invariant forall h <- order :: h in all
        invariant forall h <- all :: h in order || h in todo
        invariant todo <= all
        invariant (View(), shown) == ReleaseAll(start, order)
        decreases todo
      {
        var h :| h in todo;
        todo := todo - {h};
        var more := Release(h);
        ghost var longer := order + [h];
        assert longer[..|longer| - 1] == order;
        order, shown := longer, shown + more;
      }
      unownedHandles := {};
      channels := map[];
      var more := MaybeDrainReleases();
      shown := shown + more;
    }

    /** Starts one pass over the outstanding releases, in any order of the snapshot. */
    method RetryReleases() returns (shown: seq<Effect>, ghost order: seq<Handle>)
      modifies this
      ensures Enumerates(order, LedgerHandles(old(View()).book))
      ensures (View(), shown) == RetryStartStep(old(View()), order)
    {
      var snapshot, keys := [], releaseLedger.Keys;
      while keys != {}
        invariant keys <= releaseLedger.Keys
        invariant forall h <- snapshot :: h in LedgerHandles(View().book)
        invariant forall key <- releaseLedger :: key in keys || releaseLedger[key].handle in snapshot
        decreases keys
      {
        var key :| key in keys;
        keys := keys - {key};
        snapshot := snapshot + [releaseLedger[key].handle];
      }
      order := snapshot;
      if snapshot == [] { return [], []; }
      shown := Release(snapshot[0]);
      passes := passes[nextPass := snapshot[1..]];
      nextPass := nextPass + 1;
    }

    method OnRetryResumed(pass: nat) returns (shown: seq<Effect>)
      requires Deliverable(View(), RetryResume(pass))
      modifies this
      ensures (View(), shown) == RetryResumeStep(old(View()), pass)
    {
      var rest := passes[pass];
      if rest == [] {
        passes := passes - {pass};
        shown := [];
      } else {
        shown := Release(rest[0]);
        passes := passes[pass := rest[1..]];
      }
    }

    /** The synchronous view a late subscriber seeds its copy from. */
    method ReleaseStates() returns (view: map<string, Status>)
      ensures view == Outstandings(View().book)
    {
      view := map key <- releaseLedger :: releaseLedger[key].status;
    }
  }

  ghost function AnyOrder(handles: set<Handle>): (order: seq<Handle>)
    ensures Enumerates(order, handles)
  {
    if handles == {} then []
    else
      var h :| h in handles;
      [h] + AnyOrder(handles - {h})
  }
}
