/** The transport object behind the registry; each method is one stretch of code between the points
  * where another thread's step can fall. */
module AccessEntry {
  import opened Wrappers
  import opened EntryProtocol

  class AccessEntryTransport {
    var established: bool
    var endReported: bool
    var terminated: bool
    var releaseConfirmed: bool
    var pendingClose: Option<nat>
    var control: set<nat>
    var answers: map<nat, Option<Reply>>
    var nextId: nat
    ghost var holder: Option<Call>
    ghost var exits: nat

    ghost function View(): Entry
      reads this
    {
      Entry(established, endReported, terminated, releaseConfirmed, pendingClose, control, answers, holder, nextId,
            exits)
    }

    constructor ()
      ensures View() == STARTED
    {
      established, endReported, terminated, releaseConfirmed := false, false, false, false;
      pendingClose, control, answers, nextId := None, {}, map[], 0;
      holder, exits := None, 0;
    }

    method RequestClose(sent: bool) returns (pending: Option<nat>)
      modifies this`control, this`nextId
      ensures control == if sent then old(control) + {old(nextId)} else old(control)
      ensures nextId == old(nextId) + 1 && pending == if sent then Some(old(nextId)) else None
    {
      var id := nextId;
      nextId := nextId + 1;
      var outstanding := control;
      control := control + {id};
      if sent {
        pending := Some(id);
      } else {
        control := outstanding;
        pending := None;
      }
    }

    method RecordTheReceipt(reply: Option<Reply>) returns (outcome: Outcome)
      modifies this`releaseConfirmed
      ensures (View(), outcome) == RecordReceipt(old(View()), reply)
      ensures outcome.confirmed <==> old(releaseConfirmed) || Receipt(reply)
    {
      if releaseConfirmed { return Outcome(true, Released); }
      match reply {
        case None =>
          outcome := Outcome(false, ExitedWithoutReceipt);
        case Some(r) =>
          if r.ok && ReportOf(r).released {
            releaseConfirmed := true;
            outcome := Outcome(true, Released);
          } else {
            outcome := Outcome(false, if !r.ok then CloseRefused else Unconfirmed);
          }
      }
    }

    /** `request_release` up to its wait; no outcome yet means the caller waits. */
    method BeginRequestRelease(t: nat, sent: bool) returns (outcome: Option<Outcome>)
      requires Enabled(View(), BeginRelease(t, sent))
      modifies this
      ensures (View(), outcome) == BeginReleaseStep(old(View()), t, sent)
    {
      if releaseConfirmed { return Some(Outcome(true, Released)); }
      if !established { return Some(Outcome(false, NeverEstablished)); }
      if pendingClose.None? {
        endReported := true;
        var pending := RequestClose(sent);
        if pending.None? { return Some(Outcome(false, Unreachable)); }
        pendingClose := pending;
      }
      holder := Some(Releasing(t));
      outcome := None;
    }

    /** The wait of `request_release` is over, by an answer or by the timeout. */
    method EndRequestRelease(t: nat) returns (outcome: Option<Outcome>)
      requires Enabled(View(), EndRelease(t))
      modifies this
      ensures (View(), outcome) == EndReleaseStep(old(View()))
    {
      holder := None;
      if pendingClose.None? || pendingClose.value !in answers { return Some(Outcome(false, CloseTimeout)); }
      var reply := answers[pendingClose.value];
      pendingClose := None;
      var receipt := RecordTheReceipt(reply);
      if receipt.confirmed { terminated := true; }
      outcome := Some(receipt);
    }

    method BeginTerminateEntry(t: nat, sent: bool)
      requires Enabled(View(), BeginTerminate(t, sent))
      modifies this
      ensures View() == BeginTerminateStep(old(View()), t, sent)
    {
      if established && !releaseConfirmed {
        if pendingClose.None? { pendingClose := RequestClose(sent); }
        if pendingClose.Some? {
          holder := Some(Terminating(t));
          return;
        }
      }
      terminated := true;
    }

    method EndTerminateEntry(t: nat)
      requires Enabled(View(), EndTerminate(t))
      modifies this
      ensures View() == EndTerminateStep(old(View()))
    {
      holder := None;
      if pendingClose.Some? && pendingClose.value in answers {
        var reply := answers[pendingClose.value];
        pendingClose := None;
        var _ := RecordTheReceipt(reply);
      }
      terminated := true;
    }

    method ResolveControl(id: nat, reply: Reply)
      modifies this`control, this`answers
      ensures View() == AnsweredStep(old(View()), id, reply)
    {
      if id in control {
        control := control - {id};
        answers := answers[id := Some(reply)];
      }
    }

    method ReportTheEnd()
      modifies this`endReported, this`exits
      ensures View() == ReportEnd(old(View()))
    {
      if endReported { return; }
      endReported := true;
      exits := exits + 1;
    }

    /** The entry process is gone: no waiter stays parked. */
    method EntryExit()
      modifies this
      ensures View() == ReportEnd(AbandonStep(old(View())))
    {
      answers := answers + map id <- control :: None;
      control := {};
      ReportTheEnd();
    }
  }
}
