/** The session-title register: every title write claims a number when it is issued, and lands only
  * while that number still outranks the last one applied to its session. */
module SessionNames {
  import opened Wrappers

  datatype Session = Session(id: string, title: string)

  datatype Names = Names(
    items: seq<Session>,
    nameWrites: nat,
    nameApplied: map<string, nat>,
    pending: set<nat>)  // numbers of the list requests still unanswered

  datatype Event =
    | IssueList                                      // a refresh or a background pull goes out
    | RefreshLands(issue: nat, entries: seq<Session>)
    | PullLands(issue: nat, key: string, title: string)  // empty: the list carried no name
    | ListFails(issue: nat)
    | Rename(key: string, title: string)             // a live `session_info_update`

  // ----- the session list -----

  function IndexOf(items: seq<Session>, key: string): (i: nat)
    ensures i <= |items| && (i < |items| ==> items[i].id == key) && forall k | 0 <= k < i :: items[k].id != key
  {
    if items == [] || items[0].id == key then 0 else 1 + IndexOf(items[1..], key)
  }

  function TitleOf(items: seq<Session>, key: string): Option<string> {
    var i := IndexOf(items, key);
    if i < |items| then Some(items[i].title) else None
  }

  function Upsert(items: seq<Session>, s: Session): seq<Session> {
    var i := IndexOf(items, s.id);
    if i < |items| then items[i := s] else items + [s]
  }

  lemma IndexIsFirst(items: seq<Session>, key: string, i: nat)
    requires i <= |items| && (i < |items| ==> items[i].id == key) && forall k | 0 <= k < i :: items[k].id != key
    ensures i == IndexOf(items, key)
  {
  }

  lemma UpsertTitles(items: seq<Session>, s: Session, key: string)
    ensures TitleOf(Upsert(items, s), key) == if key == s.id then Some(s.title) else TitleOf(items, key)
  {
    var after := Upsert(items, s);
    var i, j := IndexOf(items, key), IndexOf(items, s.id);
    if key == s.id {
      IndexIsFirst(after, key, j);
    } else if i < |items| {
      IndexIsFirst(after, key, i);
    } else {
      IndexIsFirst(after, key, |after|);
    }
  }

  function AppliedTo(s: Names, key: string): nat {
    if key in s.nameApplied then s.nameApplied[key] else 0
  }

  // ----- the steps -----

  /** One numbered write to one session. */
  function Land(s: Names, issue: nat, entry: Session): Names {
    if AppliedTo(s, entry.id) >= issue then s
    else s.(nameApplied := s.nameApplied[entry.id := issue], items := Upsert(s.items, entry))
  }

  function LandAll(s: Names, issue: nat, entries: seq<Session>): Names {
    if entries == [] then s else Land(LandAll(s, issue, entries[..|entries| - 1]), issue, entries[|entries| - 1])
  }

  predicate Enabled(s: Names, e: Event) {
    (e.RefreshLands? || e.PullLands? || e.ListFails?) ==> e.issue in s.pending
  }

  function Step(s: Names, e: Event): Names {
    match e
    case IssueList => s.(nameWrites := s.nameWrites + 1, pending := s.pending + {s.nameWrites + 1})
    case RefreshLands(issue, entries) => LandAll(s.(pending := s.pending - {issue}), issue, entries)
    case PullLands(issue, key, title) =>
      var t := s.(pending := s.pending - {issue});
      if title == "" || TitleOf(s.items, key).None? then t else Land(t, issue, Session(key, title))
    case ListFails(issue) => s.(pending := s.pending - {issue})
    case Rename(key, title) =>
      if title == "" then s
      else
        s.(nameWrites := s.nameWrites + 1, nameApplied := s.nameApplied[key := s.nameWrites + 1],
           items := Upsert(s.items, Session(key, title)))
  }

  ghost predicate Possible(s: Names, events: seq<Event>) {
    events == [] ||
    (Possible(s, events[..|events| - 1]) && Enabled(Run(s, events[..|events| - 1]), events[|events| - 1]))
  }

  function Run(s: Names, events: seq<Event>): Names {
    if events == [] then s else Step(Run(s, events[..|events| - 1]), events[|events| - 1])
  }

  // ----- what was written to one session -----

  datatype Write = Write(issue: nat, title: string)

  /** The write an event carries for a session, numbered as it was issued. A list that names a
    * session twice carries its first entry. */
  function Carried(s: Names, e: Event, key: string): set<Write> {
    match e
    case RefreshLands(issue, entries) =>
      if TitleOf(entries, key).Some? then {Write(issue, TitleOf(entries, key).value)} else {}
    case PullLands(issue, k, title) => if k == key && title != "" then {Write(issue, title)} else {}
    case Rename(k, title) => if k == key && title != "" then {Write(s.nameWrites + 1, title)} else {}
    case _ => {}
  }

  function Landed(s: Names, events: seq<Event>, key: string): set<Write> {
    if events == [] then {}
    else
      var before := events[..|events| - 1];
      Landed(s, before, key) + Carried(Run(s, before), events[|events| - 1], key)
  }

  /** Numbers in use are below the counter, and an applied number is not pending any more. */
  ghost predicate NamesInv(s: Names) {
    && (forall n <- s.pending :: 0 < n <= s.nameWrites)
    && (forall key <- s.nameApplied :: s.nameApplied[key] <= s.nameWrites && s.nameApplied[key] !in s.pending)
  }

  /** Of two entries for one session the first counts. */
  lemma TitleOfOneMore(entries: seq<Session>, last: Session, key: string)
    ensures TitleOf(entries + [last], key) ==
            if TitleOf(entries, key).Some? then TitleOf(entries, key)
            else if last.id == key then Some(last.title) else None
  {
    var all, i := entries + [last], IndexOf(entries, key);
    IndexIsFirst(all, key, if i < |entries| then i else if last.id == key then |entries| else |all|);
  }

  lemma LandEffect(s: Names, issue: nat, entry: Session, key: string)
    ensures var t := Land(s, issue, entry);
            if entry.id == key && AppliedTo(s, key) < issue
            then AppliedTo(t, key) == issue && TitleOf(t.items, key) == Some(entry.title)
            else AppliedTo(t, key) == AppliedTo(s, key) && TitleOf(t.items, key) == TitleOf(s.items, key)
  {
    UpsertTitles(s.items, entry, key);
  }

  lemma {:induction false} LandAllEffect(s: Names, issue: nat, entries: seq<Session>, key: string)
    ensures var t := LandAll(s, issue, entries);
            if TitleOf(entries, key).Some? && AppliedTo(s, key) < issue
            then AppliedTo(t, key) == issue && TitleOf(t.items, key) == TitleOf(entries, key)
            else AppliedTo(t, key) == AppliedTo(s, key) && TitleOf(t.items, key) == TitleOf(s.items, key)
  {
    if entries != [] {
      var before, last := entries[..|entries| - 1], entries[|entries| - 1];
      LandAllEffect(s, issue, before, key);
      LandEffect(LandAll(s, issue, before), issue, last, key);
      assert entries == before + [last];
      TitleOfOneMore(before, last, key);
    }
  }

  lemma {:induction false} LandAllClaims(s: Names, issue: nat, entries: seq<Session>)
    ensures var t := LandAll(s, issue, entries);
            && t.nameWrites == s.nameWrites && t.pending == s.pending
            && (forall k <- t.nameApplied ::
                  t.nameApplied[k] == issue || (k in s.nameApplied && t.nameApplied[k] == s.nameApplied[k]))
  {
    if entries != [] { LandAllClaims(s, issue, entries[..|entries| - 1]); }
  }

  lemma StepKeepsInv(s: Names, e: Event)
    requires NamesInv(s) && Enabled(s, e)
    ensures NamesInv(Step(s, e))
  {
    if e.RefreshLands? { LandAllClaims(s.(pending := s.pending - {e.issue}), e.issue, e.entries); }
  }

  /** One event from one session's point of view: what it carries lands exactly when it outranks the
    * number last applied. */
  lemma StepEffect(s: Names, e: Event, key: string)
    requires NamesInv(s) && Enabled(s, e) && TitleOf(s.items, key).Some?
    ensures var t := Step(s, e);
            && TitleOf(t.items, key).Some?
            && (forall w <- Carried(s, e, key) :: w.issue <= AppliedTo(t, key))
            && (Write(AppliedTo(t, key), TitleOf(t.items, key).value) in Carried(s, e, key)
                || (AppliedTo(t, key) == AppliedTo(s, key) && TitleOf(t.items, key) == TitleOf(s.items, key)))
            && AppliedTo(s, key) <= AppliedTo(t, key)
  {
    match e
    case RefreshLands(issue, entries) => LandAllEffect(s.(pending := s.pending - {issue}), issue, entries, key);
    case PullLands(issue, k, title) => LandEffect(s.(pending := s.pending - {issue}), issue, Session(k, title), key);
    case Rename(k, title) => UpsertTitles(s.items, Session(k, title), key);
    case _ =>
  }

  function Initial(s: Names, key: string): Write
    requires TitleOf(s.items, key).Some?
  {
    Write(AppliedTo(s, key), TitleOf(s.items, key).value)
  }

  /** Whichever write was issued last wins: after any run, an existing session carries the title of
    * the write with the largest number among everything that landed and what it started with. */
  lemma {:induction false} LastIssuedWins(s: Names, events: seq<Event>, key: string)
    requires NamesInv(s) && Possible(s, events) && TitleOf(s.items, key).Some?
    ensures var t := Run(s, events);
            && NamesInv(t) && TitleOf(t.items, key).Some?
            && Initial(t, key) in Landed(s, events, key) + {Initial(s, key)}
            && (forall w <- Landed(s, events, key) + {Initial(s, key)} :: w.issue <= AppliedTo(t, key))
  {
    if events != [] {
      var before := events[..|events| - 1];
      LastIssuedWins(s, before, key);
      StepKeepsInv(Run(s, before), events[|events| - 1]);
      StepEffect(Run(s, before), events[|events| - 1], key);
    }
  }

  /** The number of a write that lands was pending or is new, and is spent afterwards. */
  lemma CarriedIsFresh(s: Names, e: Event, key: string)
    requires NamesInv(s) && Enabled(s, e)
    ensures var t, carried := Step(s, e), Carried(s, e, key);
            && s.nameWrites <= t.nameWrites
            && (forall n <- t.pending :: n in s.pending || n > s.nameWrites)
            && (forall v <- carried, w <- carried :: v == w)
            && (forall w <- carried :: (w.issue in s.pending || w.issue > s.nameWrites) &&
                                       w.issue <= t.nameWrites && w.issue !in t.pending)
  {
    if e.RefreshLands? { LandAllClaims(s.(pending := s.pending - {e.issue}), e.issue, e.entries); }
  }

  ghost predicate Spent(t: Names, writes: set<Write>) {
    && (forall v <- writes, w <- writes :: v.issue == w.issue ==> v == w)
    && (forall w <- writes :: w.issue <= t.nameWrites && w.issue !in t.pending)
  }

  /** No two writes to a session share a number. */
  lemma {:induction false} IssuesAreDistinct(s: Names, events: seq<Event>, key: string)
    requires NamesInv(s) && Possible(s, events) && TitleOf(s.items, key).Some?
    ensures NamesInv(Run(s, events)) && s.nameWrites <= Run(s, events).nameWrites
    ensures Spent(Run(s, events), Landed(s, events, key) + {Initial(s, key)})
  {
    if events != [] {
      var before, e := events[..|events| - 1], events[|events| - 1];
      IssuesAreDistinct(s, before, key);
      var t := Run(s, before);
      StepKeepsInv(t, e);
      CarriedIsFresh(t, e, key);
      SpentGrows(t, Step(t, e), Landed(s, before, key) + {Initial(s, key)}, Carried(t, e, key));
      assert Landed(s, events, key) + {Initial(s, key)} ==
             Landed(s, before, key) + {Initial(s, key)} + Carried(t, e, key);
    }
  }

  lemma SpentGrows(s: Names, t: Names, writes: set<Write>, more: set<Write>)
    requires Spent(s, writes) && s.nameWrites <= t.nameWrites
    requires forall n <- t.pending :: n in s.pending || n > s.nameWrites
    requires forall v <- more, w <- more :: v == w
    requires forall w <- more :: (w.issue in s.pending || w.issue > s.nameWrites) &&
                                 w.issue <= t.nameWrites && w.issue !in t.pending
    ensures Spent(t, writes + more)
  {
  }

  /** Histories that land the same numbered writes leave the same title, whatever their order. */
  lemma SameWritesSameTitle(s: Names, a: seq<Event>, b: seq<Event>, key: string)
    requires NamesInv(s) && TitleOf(s.items, key).Some? && Possible(s, a) && Possible(s, b)
    requires Landed(s, a, key) == Landed(s, b, key)
    ensures TitleOf(Run(s, a).items, key) == TitleOf(Run(s, b).items, key)
  {
    LastIssuedWins(s, a, key);
    LastIssuedWins(s, b, key);
    IssuesAreDistinct(s, a, key);
  }

  predicate TakesNumber(e: Event) {
    e.IssueList? || (e.Rename? && e.title != "")
  }

  /** What took a number, in the order the numbers were taken. */
  function Issued(events: seq<Event>): seq<Event> {
    if events == [] then []
    else if TakesNumber(events[|events| - 1]) then Issued(events[..|events| - 1]) + [events[|events| - 1]]
    else Issued(events[..|events| - 1])
  }

  lemma {:induction false} NumbersAreCounted(s: Names, events: seq<Event>)
    ensures Run(s, events).nameWrites == s.nameWrites + |Issued(events)|
  {
    if events == [] { return; }
    var before, e := events[..|events| - 1], events[|events| - 1];
    NumbersAreCounted(s, before);
    var t := Run(s, before);
    if e.RefreshLands? { LandAllClaims(t.(pending := t.pending - {e.issue}), e.issue, e.entries); }
  }

  predicate RenamedAt(issued: seq<Event>, i: nat, key: string, title: string) {
    i < |issued| && issued[i] == Rename(key, title)
  }

  /** The `i`-th number went to a rename of the session. */
  ghost predicate ByRename(s: Names, issued: seq<Event>, key: string, w: Write) {
    exists i: nat :: RenamedAt(issued, i, key, w.title) && w.issue == s.nameWrites + i + 1
  }

  /** An answer carries the number of its request, wherever it arrives. */
  predicate ByAnswer(e: Event, key: string, w: Write) {
    (e.RefreshLands? && TitleOf(e.entries, key) == Some(w.title) && w.issue == e.issue) ||
    (e.PullLands? && e.key == key && e.title == w.title != "" && w.issue == e.issue)
  }

  lemma CarriedExactly(s: Names, e: Event, key: string, w: Write)
    ensures w in Carried(s, e, key) <==>
            ByAnswer(e, key, w) || (e == Rename(key, w.title) && w.title != "" && w.issue == s.nameWrites + 1)
  {
  }

  lemma ByRenameOneMore(s: Names, issued: seq<Event>, e: Event, key: string, w: Write)
    ensures ByRename(s, issued + [e], key, w) <==>
            ByRename(s, issued, key, w) || (e == Rename(key, w.title) && w.issue == s.nameWrites + |issued| + 1)
  {
    var more := issued + [e];
    if ByRename(s, issued, key, w) {
      var i: nat :| RenamedAt(issued, i, key, w.title) && w.issue == s.nameWrites + i + 1;
      assert RenamedAt(more, i, key, w.title);
    }
    if e == Rename(key, w.title) { assert RenamedAt(more, |issued|, key, w.title); }
    if ByRename(s, more, key, w) {
      var i: nat :| RenamedAt(more, i, key, w.title) && w.issue == s.nameWrites + i + 1;
      assert i == |issued| || RenamedAt(issued, i, key, w.title);
    }
  }

  /** What landed can be read off the numbers taken, in their order, and the answers, in any order. */
  lemma {:induction false} LandedExactly(s: Names, events: seq<Event>, key: string, w: Write)
    ensures w in Landed(s, events, key) <==>
            ByRename(s, Issued(events), key, w) || exists e <- events :: ByAnswer(e, key, w)
  {
    if events == [] { return; }
    var before, e := events[..|events| - 1], events[|events| - 1];
    assert events == before + [e];
    LandedExactly(s, before, key, w);
    NumbersAreCounted(s, before);
    CarriedExactly(Run(s, before), e, key, w);
    if TakesNumber(e) { ByRenameOneMore(s, Issued(before), e, key, w); }
  }

  /** The same answers, pulls and renames arriving in any other order end with the same title, as long as the requests
    * and renames took their numbers in the same order. */
  lemma ArrivalOrderIsIrrelevant(s: Names, a: seq<Event>, b: seq<Event>, key: string)
    requires NamesInv(s) && TitleOf(s.items, key).Some? && Possible(s, a) && Possible(s, b)
    requires multiset(a) == multiset(b) && Issued(a) == Issued(b)
    ensures TitleOf(Run(s, a).items, key) == TitleOf(Run(s, b).items, key)
  {
    forall e ensures e in a <==> e in b {
      assert e in a <==> e in multiset(a);
      assert e in b <==> e in multiset(b);
    }
    forall w ensures w in Landed(s, a, key) <==> w in Landed(s, b, key) {
      LandedExactly(s, a, key, w);
      LandedExactly(s, b, key, w);
    }
    SameWritesSameTitle(s, a, b, key);
  }

  // ----- which sessions are listed -----

  predicate IsListed(s: Names, key: string) {
    exists item <- s.items :: item.id == key
  }

  lemma ListedExactly(s: Names, key: string)
    ensures IsListed(s, key) <==> TitleOf(s.items, key).Some?
  {
    if IsListed(s, key) {
      var i :| 0 <= i < |s.items| && s.items[i].id == key;
      assert IndexOf(s.items, key) <= i;
    }
  }

  /** Only sessions on the list have a number. */
  ghost predicate NumberedAreListed(s: Names) {
    forall key <- s.nameApplied :: TitleOf(s.items, key).Some?
  }

  /** The event names the session: a refresh that lists it, or a rename to a title. */
  predicate Brings(e: Event, key: string) {
    match e
    case RefreshLands(_, entries) => exists entry <- entries :: entry.id == key
    case Rename(k, title) => k == key && title != ""
    case _ => false
  }

  lemma LandLists(s: Names, issue: nat, entry: Session, key: string)
    requires NumberedAreListed(s) && issue > 0
    ensures var t := Land(s, issue, entry);
            && NumberedAreListed(t)
            && (TitleOf(t.items, key).Some? <==> TitleOf(s.items, key).Some? || entry.id == key)
  {
    forall k: string ensures TitleOf(Upsert(s.items, entry), k) ==
                             if k == entry.id then Some(entry.title) else TitleOf(s.items, k) {
      UpsertTitles(s.items, entry, k);
    }
  }

  lemma {:induction false} LandAllLists(s: Names, issue: nat, entries: seq<Session>, key: string)
    requires NumberedAreListed(s) && issue > 0
    ensures var t := LandAll(s, issue, entries);
            && NumberedAreListed(t)
            && (TitleOf(t.items, key).Some? <==>
                  TitleOf(s.items, key).Some? || exists entry <- entries :: entry.id == key)
  {
    if entries != [] {
      var before, last := entries[..|entries| - 1], entries[|entries| - 1];
      LandAllLists(s, issue, before, key);
      LandLists(LandAll(s, issue, before), issue, last, key);
      assert entries == before + [last];
    }
  }

  lemma StepLists(s: Names, e: Event, key: string)
    requires NamesInv(s) && NumberedAreListed(s) && Enabled(s, e)
    ensures NumberedAreListed(Step(s, e))
    ensures TitleOf(Step(s, e).items, key).Some? <==> TitleOf(s.items, key).Some? || Brings(e, key)
  {
    match e
    case RefreshLands(issue, entries) => LandAllLists(s.(pending := s.pending - {issue}), issue, entries, key);
    case PullLands(issue, k, title) =>
      if title != "" && TitleOf(s.items, k).Some? {
        LandLists(s.(pending := s.pending - {issue}), issue, Session(k, title), key);
      }
    case Rename(k, title) =>
      if title != "" {
        forall j: string ensures TitleOf(Upsert(s.items, Session(k, title)), j) ==
                                 if j == k then Some(title) else TitleOf(s.items, j) {
          UpsertTitles(s.items, Session(k, title), j);
        }
      }
    case _ =>
  }

  /** Over every run, a session is on the list exactly if it was there at the start, a refresh listed it or a rename
    * gave it a title: a pulled name never brings a session back. */
  lemma {:induction false} ListedByItsEvents(s: Names, events: seq<Event>, key: string)
    requires NamesInv(s) && NumberedAreListed(s) && Possible(s, events)
    ensures NamesInv(Run(s, events)) && NumberedAreListed(Run(s, events))
    ensures IsListed(Run(s, events), key) <==> IsListed(s, key) || exists e <- events :: Brings(e, key)
  {
    ListedExactly(s, key);
    ListedExactly(Run(s, events), key);
    if events != [] {
      var before, e := events[..|events| - 1], events[|events| - 1];
      ListedByItsEvents(s, before, key);
      ListedExactly(Run(s, before), key);
      StepKeepsInv(Run(s, before), e);
      StepLists(Run(s, before), e, key);
      assert events == before + [e];
    }
  }

  /** The client's register, updated in place. */
  class NameRegister {
    var items: seq<Session>
    var nameWrites: nat
    var nameApplied: map<string, nat>
    ghost var pending: set<nat>

    ghost function View(): Names
      reads this
    {
      Names(items, nameWrites, nameApplied, pending)
    }

    method FindIndex(key: string) returns (i: nat)
      ensures i == IndexOf(items, key)
    {
      i := 0;
      while i < |items| && items[i].id != key
        invariant i <= |items| && forall k | 0 <= k < i :: items[k].id != key
      {
        i := i + 1;
      }
      IndexIsFirst(items, key, i);
    }

    method UpsertSession(s: Session)
      modifies this`items
      ensures items == Upsert(old(items), s)
    {
      var at := FindIndex(s.id);
      if at < |items| { items := items[at := s]; } else { items := items + [s]; }
    }

    method ClaimIssue() returns (issue: nat)
      modifies this`nameWrites, this`pending
      ensures View() == Step(old(View()), IssueList) && issue == nameWrites
    {
      nameWrites := nameWrites + 1;
      pending := pending + {nameWrites};
      issue := nameWrites;
    }

    method OnRefreshListed(issue: nat, entries: seq<Session>)
      modifies this
      ensures View() == Step(old(View()), RefreshLands(issue, entries))
    {
      pending := pending - {issue};
      ghost var start := View();
      for i := 0 to |entries|
        invariant View() == LandAll(start, issue, entries[..i])
      {
        assert entries[..i + 1][..i] == entries[..i];
        var applied := if entries[i].id in nameApplied then nameApplied[entries[i].id] else 0;
        if applied < issue {
          nameApplied := nameApplied[entries[i].id := issue];
          UpsertSession(entries[i]);
        }
      }
      assert entries[..|entries|] == entries;
    }

    method OnPullListed(issue: nat, key: string, title: string)
      modifies this
      ensures View() == Step(old(View()), PullLands(issue, key, title))
    {
      pending := pending - {issue};
      if title == "" { return; }
      var at := FindIndex(key);
      if at == |items| { return; }
      var applied := if key in nameApplied then nameApplied[key] else 0;
      if applied >= issue { return; }
      nameApplied := nameApplied[key := issue];
      UpsertSession(Session(key, title));
    }

    method OnRenamed(key: string, title: string)
      modifies this
      ensures View() == Step(old(View()), Rename(key, title))
    {
      if title == "" { return; }
      nameWrites := nameWrites + 1;
      nameApplied := nameApplied[key := nameWrites];
      UpsertSession(Session(key, title));
    }
  }
}
